/** The two document shapes the engine reads and writes: a `compilers` list
    and a `packages` mapping, and the errors the engine raises. */
module Documents {
  import opened Wrappers
  import opened Dicts

  /** The fields of a YAML mapping that the engine never inspects; they are
      carried over verbatim. */
  type Fields = map<string, string>

  /** One item of the `compilers` list; `spec` is its `compiler.spec` value,
      the identity of the entry (for example `gcc@11.3.0`). */
  datatype CompilerEntry = CompilerEntry(spec: string, fields: Fields)

  /** One item of a package's `externals` list. A `prefix` key may be absent
      (an external can name modules instead of a path). */
  datatype External = External(spec: string, prefix: Option<string>, fields: Fields)

  /** The definition of one package: the optional `buildable` flag, its
      externals and its other fields. */
  datatype Package = Package(buildable: Option<bool>, externals: seq<External>, fields: Fields)

  /** The `packages` mapping, from package name to definition, in file order. */
  type Packages = Dict<Package>

  /** The exceptions the engine raises. */
  datatype Error =
    | KeyError(key: string)                // a required mapping key is absent
    | IndexError(package: string)          // `externals[0]` of a package with no externals
    | NotProvidedByTemplates(version: string)
    | NotProvidedByModule(version: string)
}
