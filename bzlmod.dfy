/**
  The Bazel module-resolution types that the lockfile codec consumes but
  whose code is not part of this model: `Version`, `ModuleKey`, `Registry`
  and `RegistryFactory`, and their exceptions. Each is an abstract type; what
  the codec calls on them is a field of a record of functions, so every
  property of the codec holds for every implementation of these types that
  is a pure function of its arguments. In particular a `RegistryFactory`
  gives the same registry each time it is asked for the same URL.
  What the round-trip properties must assume about them is stated as a
  predicate here, never built into the codec.
 */
module Bzlmod {
  import opened Wrappers

  type Version(!new)
  /** `Version.ParseException`, thrown by `Version.parse`. */
  type ParseException
  type ModuleKey
  type Registry
  type RegistryFactory
  /** `java.net.URISyntaxException`, thrown by `RegistryFactory.getRegistryWithUrl`. */
  type UriSyntaxException

  /** `Version.parse`, `Version.toString` and the constant `Version.EMPTY`. */
  datatype VersionApi = VersionApi(
    parse: string -> Result<Version, ParseException>,
    toString: Version -> string,
    empty: Version)

  /** `ModuleKey.create`, the constant `ModuleKey.ROOT` and `ModuleKey.toString`. */
  datatype ModuleKeyApi = ModuleKeyApi(
    create: (string, Version) -> ModuleKey,
    root: ModuleKey,
    toString: ModuleKey -> string)

  /** `RegistryFactory.getRegistryWithUrl` (for a given factory) and `Registry.getUrl`. */
  datatype RegistryApi = RegistryApi(
    getRegistryWithUrl: (RegistryFactory, string) -> Result<Registry, UriSyntaxException>,
    getUrl: Registry -> string)

  /**
    ASSUMED shape of `ModuleKey.toString`, which is not part of this model:
    the root key prints as `<root>`, every other key as its name, `@`, and
    either `_` for the empty version or the version's own text.
   */
  ghost predicate ModuleKeyPrintsAsToken(keys: ModuleKeyApi, versions: VersionApi)
  {
    && keys.toString(keys.root) == "<root>"
    && forall name, version ::
         keys.create(name, version) != keys.root ==>
           keys.toString(keys.create(name, version))
             == name + "@" + (if version == versions.empty then "_" else versions.toString(version))
  }
}
