# concat_yaml merge engine in Dafny

This project models the merge engine of `concat_yaml.py`, the script that
builds a machine's Spack configuration from three sources:
- the site templates (the primary tier);
- the vendor `spack-config` module (the secondary tier);
- the packages that `spack external find` discovered (the external tier).

What the model covers:
- **Compiler merge.** The compiler lists are merged by their `compiler.spec` identity.
- **Package merge.** The package mappings are merged by package name. A higher tier wins every identity it shares with a lower one.
- **Post-merge rules.** These change the joint package mapping in place:
  - `cray-mpich` is renamed to a non-buildable `mpich`;
  - `libxml2` is made buildable;
  - optionally, the first `cuda` external's prefix is aligned with the module's.

Layout:
- `wrappers.dfy`: `Option`, `Result` and `Outcome`.
- `text.dfy`: Python's `sub in s` (`Contains`) and `s.replace(pat, '')` (`RemoveAll`) on strings.
- `dicts.dfy`: a Python insertion-ordered `dict` with string keys.
  - It is a sequence of key/value items with no key twice (`UniqueKeys`).
  - There are `d[k]` (`Get`), `d[k] = v` (`Put`), `d.pop(k)` (`Pop`) and `d.update(o)` (`Update`).
  - The order vocabulary `Restrict`, `Drop` and `Overwrite` states what the merge produces.
  - Key order is part of the model. That matters on the assumption that the YAML writer keeps the mapping's order; whether `yaml.safe_dump` does is not part of this model.
- `documents.dfy`: compiler entries, package definitions, externals and the errors the engine raises.
  - Python exceptions are values: `KeyError`, `IndexError` for `externals[0]` of an empty list, and the two "not provided" `ValueError`s.
- `helpers.dfy`: `specs_from_list_with_keys`, `dictkeys_as_set` and `remove_from_dict`. Each is a loop, proved equal to its specification function.
- `merge.dfy`: the duplicate-removal loop, `remove_duplicate_compilers` and `remove_duplicate_packages`.
  - The package merge is proved equal to the reference `MergedPackages`.
  - `MergedPackages` is `primary + Overwrite(Drop(secondary, keys(primary)), external) + Drop(external, keys(primary) + keys(secondary))`.
  - Its properties are proved as lemmas.
- `transforms.dfy`: each post-merge rule as a function from the mapping to the new mapping or to the error the rule raises, with lemmas about each.
- `joint.dfy`: the joint documents.
  - `join_compilers` and `join_packages`.
  - The class `PackagesDocument`, whose methods apply the rules in place. Each method is proved to leave the result of the rule's function, or, on an error, the unchanged mapping.
  - The merge-and-transform sequence of the script's main block.

Two behaviours of the code are easy to misread:
- **Secondary and external are not disjoint.** The script checks secondary and external against primary only, so the three filtered tiers need not be pairwise disjoint.
  - A package that secondary and external both define, and primary does not, survives in both filtered tiers.
  - The second `update` then gives it external's definition at its position among the surviving secondary packages.
  - `Merge.SecondaryExternalOverlap` proves this for every such package. `Merge.MergedPackagesProperties` states the resulting precedence: primary, then external, then secondary.
- **The rename deletes every `cray-`.** `str.replace` deletes every occurrence of `cray-` in the spec in one left-to-right pass, not only a leading prefix. The model does the same (`Text.RemoveAll`, `Transforms.RenameIsSinglePass`).

## Model

| member | source | states |
|---|---|---|
| Helpers.SpecsFromListWithKeys | concat_yaml.py:216-221 | the loop returns exactly the set of `compiler.spec` values of the list |
| Helpers.DictKeysAsSet | concat_yaml.py:224-228 | the loop returns exactly the keys of the mapping: a name is in the result iff looking it up succeeds |
| Helpers.RemoveFromDict | concat_yaml.py:231-236 | the new mapping holds exactly the items whose key is in the filter, in the original order, with their values; its keys are the original keys intersected with the filter |
| Dicts.RestrictProperties | concat_yaml.py:231-236 | filtering a mapping keeps unique keys, has key set `keys * keep`, and looks up as the original on kept keys and as missing elsewhere |
| Dicts.PutProperties | concat_yaml.py:235 | `d[k] = v` adds `k` to the keys, keeps keys unique, makes `k` map to `v` and leaves every other key's value alone |
| Dicts.PutTwice | concat_yaml.py:70-72 | assigning a key twice equals assigning the second value once, in the same position |
| Dicts.PopProperties | concat_yaml.py:74 | `d.pop(k)` removes exactly `k` and leaves every other key's value alone |
| Dicts.UpdateShape | concat_yaml.py:154-155 | `d.update(o)` on unique mappings is `d` with shared keys taking `o`'s value, in `d`'s order, followed by `o`'s new keys in `o`'s order |
| Dicts.UpdateStepExisting | concat_yaml.py:154-155 | one step of `update` with a key the mapping has overwrites it in place |
| Dicts.UpdateStepNew | concat_yaml.py:154-155 | one step of `update` with a new key appends it |
| Dicts.KeyAt | concat_yaml.py:226 | every key of a mapping is the key of one of its items |
| Dicts.OverwriteAt | concat_yaml.py:154-155 | an overwrite keeps the length, and item `i` takes `o`'s value exactly when `o` defines its key |
| Dicts.UpdateProperties | concat_yaml.py:154-155 | after `d.update(o)` the keys are the union, still unique, and `o` wins every key it defines |
| Merge.RemoveDuplicates | concat_yaml.py:127-129 | removing the higher tier's identities one by one leaves exactly `lower - higher`; no removal can fail |
| Merge.KeepSpecsAll | concat_yaml.py:131 | filtering the primary list by its own spec set keeps it whole, duplicates and order included |
| Merge.KeepSpecsDifference | concat_yaml.py:132 | filtering the secondary list by its surviving specs drops exactly the entries whose spec the primary has |
| Merge.DropSpecsMembers | concat_yaml.py:132 | an entry survives the filter iff it is in the list and its spec is not dropped |
| Merge.DropSpecsAppend | concat_yaml.py:131-134 | the filter keeps order: it distributes over concatenation |
| Merge.DropSpecsNone | concat_yaml.py:132 | a list none of whose specs is dropped survives whole |
| Merge.RemoveDuplicateCompilers | concat_yaml.py:123-134 | the result is the whole primary list followed by the secondary entries whose spec is not a primary spec, in order; no appended entry shares a primary spec; an empty secondary list gives the primary list unchanged |
| Merge.MergedPackagesKeys | concat_yaml.py:137-156 | the merged keys are the union of the three tiers' keys, and no key occurs twice |
| Merge.MergedPackagesGet | concat_yaml.py:137-156 | a merged lookup gives primary's definition if primary has one, else external's, else secondary's |
| Merge.MergedPackagesProperties | concat_yaml.py:137-156 | the merged keys are the union of the three tiers, each once; a package primary defines has primary's definition; otherwise external's if external defines it; otherwise secondary's |
| Merge.MergedPackagesIgnoreTierOrder | concat_yaml.py:137-156 | reordering the items of the secondary or the external tier changes neither the merged key set nor any merged definition |
| Merge.SecondaryExternalOverlap | concat_yaml.py:146-155 | every package that secondary and external define and primary does not sits in the merged mapping at index `|primary| + i`, where `i` is its index among the surviving secondary packages, with external's definition |
| Merge.SecondaryExternalOverlapExample | concat_yaml.py:146-155 | example: primary `a`, and `b` in both secondary and external, merge to `[a: primary's, b: external's]` |
| Merge.FirstUpdateAppends | concat_yaml.py:154 | the first `update` appends the filtered secondary to primary, because they share no name |
| Merge.SecondUpdateMerges | concat_yaml.py:155 | the second `update` turns primary plus filtered secondary into `MergedPackages` |
| Merge.SameLookupsSameKeys | concat_yaml.py:137-156 | two mappings with the same lookups have the same key set |
| Merge.RemoveDuplicatePackages | concat_yaml.py:137-156 | the statements compute exactly `MergedPackages` of the inputs, and the result has unique keys |
| Text.RemoveAll | concat_yaml.py:66 | deleting occurrences never lengthens the text and leaves a text without an occurrence unchanged |
| Text.ContainsAt | concat_yaml.py:28 | `sub in s` holds iff `sub` occurs at some position of `s` |
| Text.MissingCharNotContained | concat_yaml.py:28 | a text that lacks one of the pattern's characters does not contain the pattern |
| Text.LeadingOccurrenceRemoved | concat_yaml.py:66 | a leading occurrence of the pattern is deleted and the scan continues after it |
| Transforms.RenameErrors | concat_yaml.py:63-65 | the rename fails iff `cray-mpich` is absent (KeyError) or has no externals (IndexError) |
| Transforms.RenameProperties | concat_yaml.py:56-76 | when `cray-mpich` is defined with an external, the rename succeeds: `cray-mpich` is gone, `mpich` holds the reclassified definition, the keys stay unique and every other package is unchanged |
| Transforms.ReclassifiedProperties | concat_yaml.py:65-72 | the entry stored under `mpich` is the `cray-mpich` entry with `buildable` false and the first external's spec stripped of `cray-`; its other externals and fields are unchanged |
| Transforms.RenameSingle | concat_yaml.py:56-76 | a mapping holding only `cray-mpich` becomes one holding only `mpich` |
| Transforms.RenameStripsPrefix | concat_yaml.py:56-76 | a lone `cray-mpich` whose spec is `cray-` followed by a text without `r` becomes a lone non-buildable `mpich` with that text as its spec and the same prefix |
| Transforms.RenameAppendsMpich | concat_yaml.py:70-74 | with no `mpich` before, the result is the mapping without `cray-mpich` followed by the new `mpich` item |
| Transforms.RenameExample | concat_yaml.py:56-76 | `cray-mpich@8.1` at `/opt/x` becomes the only package, a non-buildable `mpich@8.1` at `/opt/x` |
| Transforms.StripExample | concat_yaml.py:65-66 | deleting `pat` from `pat + rest` leaves `rest` when `rest` lacks one of `pat`'s characters |
| Transforms.RenameIsSinglePass | concat_yaml.py:66 | the deletion does not rescan: `ccray-ray-` becomes `cray-` |
| Transforms.AllowXmlProperties | concat_yaml.py:79-82 | the rule fails with KeyError iff `libxml2` is absent; otherwise `libxml2` is buildable with externals and fields unchanged, and keys, key order and every other package are as before |
| Transforms.AllowXmlIdempotent | concat_yaml.py:79-82 | applying the rule to its own result gives the same result |
| Transforms.FirstMatch | concat_yaml.py:38-45 | the result is the index of the first external whose spec contains the version, or none when no spec contains it |
| Transforms.FindModulePrefix | concat_yaml.py:32-49 | the two loops give KeyError when a module external lacks `prefix`, the module-side ValueError when no spec contains the version, and otherwise the prefix of the first match (`ModulePrefix`) |
| Transforms.FirstMatchUnique | concat_yaml.py:40-45 | the position where the `break` happens is the first match |
| Transforms.AlignCudaProperties | concat_yaml.py:14-53 | the template-side error happens iff the joint `cuda`'s first spec lacks the version; the module-side error iff it has it, every module external has a prefix and no module spec contains it; on success only the joint `cuda`'s first prefix changes, to the first matching module external's, and the keys and their order stay the same |
| Transforms.AlignCudaIdempotent | concat_yaml.py:14-53 | aligning again with the same inputs changes nothing more |
| Transforms.AlignCudaExample | concat_yaml.py:14-53 | version `11.0` turns the joint `cuda@11.0.228` at `/old` into the same spec at the module's `/new` |
| Transforms.AlignCudaRefusedExample | concat_yaml.py:26-30 | in the same example version `9.9` raises the template-side error |
| Transforms.SubstringMatchTakesFirst | concat_yaml.py:40-44 | versions match by substring: `11.0` takes the prefix of a `cuda@11.0.1` listed before `cuda@11.0` |
| Transforms.TransformedProperties | concat_yaml.py:312-315 | rename then allow-xml fails iff either would fail on the merged mapping; on success `mpich` is non-buildable, `libxml2` buildable, `cray-mpich` gone and every other package as merged |
| Joint.JoinCompilers | concat_yaml.py:159-170 | the joint `compilers` list is the primary list followed by the secondary entries with a new spec |
| Joint.JoinPackages | concat_yaml.py:173-200 | the joint document is fresh, has unique keys, and its `packages` mapping is `MergedPackages` of the three mappings |
| Joint.PackagesDocument.constructor | concat_yaml.py:197-198 | the document holds the given mapping |
| Joint.PackagesDocument.RenameCrayMpichToMpich | concat_yaml.py:56-76 | the in-place rename leaves the mapping `RenamedCrayMpich` returns and reports success, or reports its error and leaves the mapping unchanged |
| Joint.PackagesDocument.AllowXmlToBeBuilt | concat_yaml.py:79-82 | the in-place rule leaves the mapping `AllowedXml` returns, or reports KeyError and leaves the mapping unchanged |
| Joint.PackagesDocument.AlignCudaVersions | concat_yaml.py:14-53 | the in-place alignment leaves the mapping `AlignedCuda` returns, or reports its error and leaves the mapping unchanged |
| Joint.ConcatYaml | concat_yaml.py:307-315 | the main block's merge yields the joint compiler list, and a fresh package document that holds the result of rename then allow-xml on the merged packages, or the first error |

## Left out

- Reading and writing YAML (`load_from_yaml`, `dump_yaml_to_file`): file I/O. The loaded documents are parameters. The parse-error path at line 212 raises through a name (`syaml`) the script never imports, and is not modelled.
- `spack_external_find`, `git_diff` and `commit_and_push_to_git`: subprocesses, environment variables and git.
- The argument parsing, the `SPACK_SYSTEM_CONFIG_PATH` lookup, the file names and the cleanup of the main block: process environment and file system. `Joint.ConcatYaml` covers only the merge and the rules.
- The `print` calls: console output.
- `AlignCudaVersions` loads the module document itself in the source (line 22). The model receives that document's `packages` mapping as a parameter.
- `Joint.JoinCompilers`, `Joint.JoinPackages`: the source raises KeyError when a loaded document lacks its `compilers` or `packages` key. The model starts from the lists and mappings under those keys.
- `Helpers.SpecsFromListWithKeys`: the key path is fixed to `compiler`, `spec`, the only one the script passes. A compiler entry without that path, and an entry that is not a mapping, are not modelled.
- Package definitions that lack `externals`, and externals that lack `spec`: the model always has them. A missing one would be a KeyError in the source. A missing `prefix` is modelled.
- The unknown fields of entries are modelled as a string-to-string map and carried over verbatim. Their YAML types, and the key order inside nested mappings, are not modelled.
- Aliasing: the source's joint mapping shares nested entries with the loaded documents, and the rename mutates one entry through two names. The model has value semantics. The inputs are provably never changed, and the shared entry is one local value.
