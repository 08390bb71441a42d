/**
  The three scalar Gson type adapters of the Bazel lockfile: `Version`,
  `ModuleKey` and `Registry`. A JSON stream is reduced to the one string
  token an adapter reads with `nextString()` or writes with `value(...)`;
  a read either returns a value or throws, which is a `Result` here.
 */
module TypeAdapters {
  import opened Wrappers
  import opened Splitter
  import opened Bzlmod

  /** The exceptions a read can end in. */
  datatype Thrown =
    /** Gson's `JsonParseException`: the lockfile text is bad, and the message names it. */
    | JsonParseException(message: string, parseCause: ParseException)
    /** `List.get` past the end of the `@`-split of a module-key token. */
    | IndexOutOfBoundsException(index: nat, size: nat)
    /** A bare `RuntimeException` wrapping a bad registry URL: a fatal error. */
    | RuntimeException(message: string, uriCause: UriSyntaxException)

  /** The typed parse error the lockfile reader reports as a corrupt lockfile. */
  predicate Recoverable(e: Thrown)
  {
    e.JsonParseException?
  }

  /** `part` occurs somewhere in `text`. */
  predicate Contains(text: string, part: string)
  {
    part <= text || (text != [] && Contains(text[1..], part))
  }

  lemma {:induction false} ContainsInfix(before: string, part: string, after: string)
    ensures Contains(before + part + after, part)
  {
    if before != [] {
      assert (before + part + after)[1..] == before[1..] + part + after;
      ContainsInfix(before[1..], part, after);
    }
  }

  const ROOT_TOKEN: string := "<root>"
  const EMPTY_VERSION_PLACEHOLDER: string := "_"
  const SEPARATOR: char := '@'
  const INVALID_REGISTRY_URL_MESSAGE: string := "Lockfile registry URL is not valid"

  function VersionParseMessage(token: string): (m: string)
    ensures Contains(m, token)
  {
    ContainsInfix("Unable to parse Version ", token, " from the lockfile");
    "Unable to parse Version " + token + " from the lockfile"
  }

  function ModuleKeyParseMessage(token: string): (m: string)
    ensures Contains(m, token)
  {
    ContainsInfix("Unable to parse ModuleKey ", token, " version from the lockfile");
    "Unable to parse ModuleKey " + token + " version from the lockfile"
  }

  // ---------------------------------------------------------------- Version

  /** `versionTypeAdapter.write`: the version's own text, as one JSON string; it cannot fail. */
  function WriteVersion(versions: VersionApi, version: Version): (token: string)
    ensures token == versions.toString(version)
  {
    versions.toString(version)
  }

  /** `versionTypeAdapter.read`. */
  function ReadVersion(versions: VersionApi, token: string): (r: Result<Version, Thrown>)
    ensures versions.parse(token).Success? ==> r == Success(versions.parse(token).value)
    ensures versions.parse(token).Failure? ==>
      && r.Failure? && Recoverable(r.error)
      && r.error.parseCause == versions.parse(token).error
      && Contains(r.error.message, token)
  {
    match versions.parse(token)
    case Success(version) => Success(version)
    case Failure(e) => Failure(JsonParseException(VersionParseMessage(token), e))
  }

  /** Writing then reading a version gives it back whenever `Version.parse` accepts its text. */
  lemma VersionRoundTrip(versions: VersionApi, version: Version)
    requires versions.parse(versions.toString(version)) == Success(version)
    ensures ReadVersion(versions, WriteVersion(versions, version)) == Success(version)
  {
  }

  // -------------------------------------------------------------- ModuleKey

  /** The name part of a module-key token: the text before its first `@`. */
  function NameSegment(token: string): string
  {
    Before(token, SEPARATOR)
  }

  /** The version part of a module-key token: the text between its first and second `@`. */
  function VersionSegment(token: string): string
  {
    Before(After(token, SEPARATOR), SEPARATOR)
  }

  /** `moduleKeyTypeAdapter.write`: the key's own text, as one JSON string; it cannot fail. */
  function WriteModuleKey(keys: ModuleKeyApi, key: ModuleKey): (token: string)
    ensures token == keys.toString(key)
  {
    keys.toString(key)
  }

  /** `moduleKeyTypeAdapter.read`. */
  function ReadModuleKey(keys: ModuleKeyApi, versions: VersionApi, token: string): (r: Result<ModuleKey, Thrown>)
    ensures token == ROOT_TOKEN ==> r == Success(keys.root)
    ensures token != ROOT_TOKEN && SEPARATOR !in token ==> r == Failure(IndexOutOfBoundsException(1, 1))
    ensures token != ROOT_TOKEN && SEPARATOR in token && VersionSegment(token) == EMPTY_VERSION_PLACEHOLDER ==>
      r == Success(keys.create(NameSegment(token), versions.empty))
    ensures token != ROOT_TOKEN && SEPARATOR in token && VersionSegment(token) != EMPTY_VERSION_PLACEHOLDER ==>
      match versions.parse(VersionSegment(token))
      case Success(version) => r == Success(keys.create(NameSegment(token), version))
      case Failure(e) =>
        && r.Failure? && Recoverable(r.error)
        && r.error.parseCause == e
        && Contains(r.error.message, token)
  {
    if token == ROOT_TOKEN then Success(keys.root)
    else
      var parts := Split(token, SEPARATOR);
      SplitSegments(token, SEPARATOR);
      if |parts| < 2 then Failure(IndexOutOfBoundsException(1, |parts|))
      else if parts[1] == EMPTY_VERSION_PLACEHOLDER then Success(keys.create(parts[0], versions.empty))
      else
        match versions.parse(parts[1])
        case Success(version) => Success(keys.create(parts[0], version))
        case Failure(e) => Failure(JsonParseException(ModuleKeyParseMessage(token), e))
  }

  /** Where the name and version segments of a token `name@segment...` are. */
  lemma TokenSegments(name: string, segment: string, rest: string)
    requires SEPARATOR !in name && SEPARATOR !in segment
    requires rest == [] || rest[0] == SEPARATOR
    ensures
      var token := name + [SEPARATOR] + segment + rest;
      && token != ROOT_TOKEN && SEPARATOR in token
      && NameSegment(token) == name && VersionSegment(token) == segment
  {
    var token := name + [SEPARATOR] + segment + rest;
    assert token == name + [SEPARATOR] + (segment + rest);
    PrefixBeforeSeparator(name, segment + rest, SEPARATOR);
    assert token != ROOT_TOKEN by { assert SEPARATOR !in ROOT_TOKEN; }
    if rest != [] {
      assert segment + rest == segment + [SEPARATOR] + rest[1..];
      PrefixBeforeSeparator(segment, rest[1..], SEPARATOR);
    }
  }

  /** The key a token denotes is the same whether or not further `@` segments follow the version. */
  lemma ModuleKeyIgnoresTrailingSegments(keys: ModuleKeyApi, versions: VersionApi, name: string, segment: string, rest: string)
    requires SEPARATOR !in name && SEPARATOR !in segment
    ensures
      var short := ReadModuleKey(keys, versions, name + "@" + segment);
      var long := ReadModuleKey(keys, versions, name + "@" + segment + "@" + rest);
      && (long.Success? <==> short.Success?)
      && (long.Success? ==> long == short)
      && (long.Failure? ==>
            && long.error.JsonParseException? && short.error.JsonParseException?
            && long.error.parseCause == short.error.parseCause
            && Contains(long.error.message, name + "@" + segment + "@" + rest))
  {
    TokenSegments(name, segment, []);
    assert name + "@" + segment + [] == name + "@" + segment;
    TokenSegments(name, segment, "@" + rest);
    assert name + "@" + segment + ("@" + rest) == name + "@" + segment + "@" + rest;
  }

  /**
    Under the assumed shape of `ModuleKey.toString`, reading back what was
    written gives the same key, for the root key and for every key whose
    name has no `@` and whose version text has no `@`, is not `_` and is
    accepted by `Version.parse`.
   */
  lemma ModuleKeyRoundTrip(keys: ModuleKeyApi, versions: VersionApi, name: string, version: Version)
    requires ModuleKeyPrintsAsToken(keys, versions)
    requires SEPARATOR !in name
    requires version != versions.empty ==>
      && SEPARATOR !in versions.toString(version)
      && versions.toString(version) != EMPTY_VERSION_PLACEHOLDER
      && versions.parse(versions.toString(version)) == Success(version)
    ensures ReadModuleKey(keys, versions, WriteModuleKey(keys, keys.root)) == Success(keys.root)
    ensures ReadModuleKey(keys, versions, WriteModuleKey(keys, keys.create(name, version)))
         == Success(keys.create(name, version))
  {
    var key := keys.create(name, version);
    if key != keys.root {
      var segment := if version == versions.empty then EMPTY_VERSION_PLACEHOLDER else versions.toString(version);
      assert WriteModuleKey(keys, key) == name + [SEPARATOR] + segment + [];
      TokenSegments(name, segment, []);
    }
  }

  // --------------------------------------------------------------- Registry

  /** `registryTypeAdapter(factory).write`: the registry's URL, as one JSON string; it cannot fail. */
  function WriteRegistry(registries: RegistryApi, registry: Registry): (token: string)
    ensures token == registries.getUrl(registry)
  {
    registries.getUrl(registry)
  }

  /**
    `registryTypeAdapter(factory).read`: the token goes to the factory as it
    is; what the factory builds is returned, and a URI syntax error becomes
    a fatal `RuntimeException`, never an absent or default registry.
   */
  function ReadRegistry(registries: RegistryApi, factory: RegistryFactory, token: string): (r: Result<Registry, Thrown>)
    ensures registries.getRegistryWithUrl(factory, token).Success? ==>
      r == Success(registries.getRegistryWithUrl(factory, token).value)
    ensures registries.getRegistryWithUrl(factory, token).Failure? ==>
      && r == Failure(RuntimeException(INVALID_REGISTRY_URL_MESSAGE, registries.getRegistryWithUrl(factory, token).error))
      && !Recoverable(r.error)
  {
    match registries.getRegistryWithUrl(factory, token)
    case Success(registry) => Success(registry)
    case Failure(e) => Failure(RuntimeException(INVALID_REGISTRY_URL_MESSAGE, e))
  }

  /**
    A registry that a factory built from a URL it keeps reads back, through
    the same factory, as the registry the factory gives for the written URL,
    which has that URL.
   */
  lemma RegistryRoundTrip(registries: RegistryApi, factory: RegistryFactory, url: string)
    requires registries.getRegistryWithUrl(factory, url).Success?
    requires registries.getUrl(registries.getRegistryWithUrl(factory, url).value) == url
    ensures
      var registry := registries.getRegistryWithUrl(factory, url).value;
      var read := ReadRegistry(registries, factory, WriteRegistry(registries, registry));
      && read == Success(registry)
      && registries.getUrl(read.value) == url
  {
  }
}
