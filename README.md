# Bazel lockfile type adapters, modelled in Dafny

This project models `TypeAdapterUtil`, the codec layer Bazel uses to write
its module lockfile (`MODULE.bazel.lock`) as JSON and read it back. That layer
has three parts:

- three Gson type adapters, which turn a `Version`, a `ModuleKey` and a
  `Registry` into one JSON string token and back;
- the error cases each adapter's read can end in;
- the one process-wide `GsonBuilder` that collects the adapters. Every call
  to `getLockfileGsonWithTypeAdapters` adds one more Registry adapter to it.

Modules:

- `Wrappers` (`wrappers.dfy`): `Option` and `Result`. A Java "return or
  throw" becomes `Success` or `Failure`.
- `Splitter` (`splitter.dfy`): Guava's `Splitter.on('@').splitToList`. It
  cuts the string at every separator and keeps empty segments. It comes with
  its partner `Join` and with lemmas that say which text segments 0 and 1 are.
- `Bzlmod` (`bzlmod.dfy`): the Bazel types the codec calls into but whose
  code is not part of this model: `Version`, `ModuleKey`, `Registry`,
  `RegistryFactory` and their exceptions. Each is an abstract type. The
  operations the codec uses (`Version.parse`, `Version.toString`,
  `Version.EMPTY`, `ModuleKey.create`, `ModuleKey.ROOT`, `ModuleKey.toString`,
  `RegistryFactory.getRegistryWithUrl`, `Registry.getUrl`) are fields of
  records of functions, so every result holds for every implementation of
  them that is a pure function of its arguments. `ModuleKeyPrintsAsToken` states the printed form of `ModuleKey` that
  the round trip needs, as an explicit assumption.
- `TypeAdapters` (`type_adapters.dfy`): the read and write of each adapter,
  the exception taxonomy `Thrown`, and the round-trip lemmas.
- `LockfileGson` (`lockfile_gson.dfy`): the registrations, a `GsonBuilder`
  class that accumulates them in a `seq` field, and a `TypeAdapterUtil` class
  that holds the shared builder as its static state. It also has `Resolve`,
  Gson's lookup rule, which is stated as an assumption.

A JSON stream is modelled as the single string token an adapter reads with
`nextString()` or writes with `value(...)`.

A module-key token is not split at its first `@` into exactly two parts, as
its printed form `name@version` suggests. The code splits at every `@`: it
takes segment 0 as the name and segment 1 as the version, and ignores all
later segments. The model follows the code.
`ModuleKeyIgnoresTrailingSegments` states the consequence.

## Model

| member | source | states |
|---|---|---|
| `Splitter.Split` | src/main/java/com/google/devtools/build/lib/bazel/bzlmod/jsontypefactories/TypeAdapterUtil.java:70 | the segments contain no `@`; joining them with `@` gives back the token; there is one more segment than there are `@`s |
| `Splitter.SplitSegments` | src/main/java/com/google/devtools/build/lib/bazel/bzlmod/jsontypefactories/TypeAdapterUtil.java:70-72 | segment 0 is the text before the first `@`; segment 1 exists exactly when the token has an `@`, and it is the text between the first and the second `@` |
| `Splitter.SplitJoin` | src/main/java/com/google/devtools/build/lib/bazel/bzlmod/jsontypefactories/TypeAdapterUtil.java:70 | splitting a `@`-join of separator-free segments gives back exactly those segments, so splitting has a unique answer |
| `Splitter.PrefixBeforeSeparator` | src/main/java/com/google/devtools/build/lib/bazel/bzlmod/jsontypefactories/TypeAdapterUtil.java:70 | cutting `a@b`, where `a` has no `@`, at its first `@` gives `a` and `b` |
| `TypeAdapters.VersionParseMessage` | src/main/java/com/google/devtools/build/lib/bazel/bzlmod/jsontypefactories/TypeAdapterUtil.java:52 | the Version parse-error message contains the offending token |
| `TypeAdapters.ModuleKeyParseMessage` | src/main/java/com/google/devtools/build/lib/bazel/bzlmod/jsontypefactories/TypeAdapterUtil.java:79 | the ModuleKey parse-error message contains the whole token |
| `TypeAdapters.WriteVersion` | src/main/java/com/google/devtools/build/lib/bazel/bzlmod/jsontypefactories/TypeAdapterUtil.java:41-43 | the token written is exactly `version.toString()`; the result is a plain string, so writing cannot fail |
| `TypeAdapters.ReadVersion` | src/main/java/com/google/devtools/build/lib/bazel/bzlmod/jsontypefactories/TypeAdapterUtil.java:45-55 | when `Version.parse` accepts the token, its version is returned; when it rejects it, a recoverable `JsonParseException` is raised that wraps the parse error and whose message contains the token |
| `TypeAdapters.VersionRoundTrip` | src/main/java/com/google/devtools/build/lib/bazel/bzlmod/jsontypefactories/TypeAdapterUtil.java:39-56 | reading back what was written gives the same version whenever `Version.parse` maps that text back to the same version |
| `TypeAdapters.WriteModuleKey` | src/main/java/com/google/devtools/build/lib/bazel/bzlmod/jsontypefactories/TypeAdapterUtil.java:60-62 | the token written is exactly `moduleKey.toString()`; the result is a plain string, so writing cannot fail |
| `TypeAdapters.ReadModuleKey` | src/main/java/com/google/devtools/build/lib/bazel/bzlmod/jsontypefactories/TypeAdapterUtil.java:64-82 | `<root>` gives `ModuleKey.ROOT`, whatever the version and key operations do; any other token with no `@` fails with index 1 out of bounds for a one-element list; a version segment `_` gives `create(name, Version.EMPTY)` and ignores `Version.parse`; any other version segment gives `create(name, parse(segment))`, or a recoverable `JsonParseException` wrapping the parse error whose message contains the whole token |
| `TypeAdapters.TokenSegments` | src/main/java/com/google/devtools/build/lib/bazel/bzlmod/jsontypefactories/TypeAdapterUtil.java:67-77 | in `name@segment` followed by nothing or by `@...`, where `name` and `segment` have no `@`, the token is not `<root>`, the name segment is `name` and the version segment is `segment` |
| `TypeAdapters.ModuleKeyIgnoresTrailingSegments` | src/main/java/com/google/devtools/build/lib/bazel/bzlmod/jsontypefactories/TypeAdapterUtil.java:70-81 | `name@v@rest` and `name@v` succeed or fail together and give the same key; on failure both are parse errors with the same cause, and the message names the full token including `rest` |
| `TypeAdapters.ModuleKeyRoundTrip` | src/main/java/com/google/devtools/build/lib/bazel/bzlmod/jsontypefactories/TypeAdapterUtil.java:58-82 | under the assumed `ModuleKey.toString` shape, reading back what was written gives the same key: for the root key, for empty-version keys, and for keys whose name has no `@` and whose version text has no `@`, is not `_` and parses back |
| `TypeAdapters.WriteRegistry` | src/main/java/com/google/devtools/build/lib/bazel/bzlmod/jsontypefactories/TypeAdapterUtil.java:88-90 | the token written is exactly `registry.getUrl()`; the result is a plain string, so writing cannot fail |
| `TypeAdapters.ReadRegistry` | src/main/java/com/google/devtools/build/lib/bazel/bzlmod/jsontypefactories/TypeAdapterUtil.java:92-99 | the token goes to the injected factory unchanged and the factory's registry is returned; a URI syntax error becomes the fatal, non-recoverable `RuntimeException("Lockfile registry URL is not valid")` wrapping it, never an absent value |
| `TypeAdapters.RegistryRoundTrip` | src/main/java/com/google/devtools/build/lib/bazel/bzlmod/jsontypefactories/TypeAdapterUtil.java:85-100 | a registry that a factory built from a URL it keeps reads back, through the same factory, as the registry the factory gives for the written URL, which has that URL |
| `LockfileGson.GsonBuilder.constructor` | src/main/java/com/google/devtools/build/lib/bazel/bzlmod/jsontypefactories/TypeAdapterUtil.java:103 | a new builder holds no registrations |
| `LockfileGson.GsonBuilder.RegisterTypeAdapterFactory` | src/main/java/com/google/devtools/build/lib/bazel/bzlmod/jsontypefactories/TypeAdapterUtil.java:104-108 | appends one registration of the given factory after all existing ones and changes nothing else |
| `LockfileGson.GsonBuilder.RegisterTypeAdapter` | src/main/java/com/google/devtools/build/lib/bazel/bzlmod/jsontypefactories/TypeAdapterUtil.java:109-110 | appends one registration binding the given class to the given adapter after all existing ones and changes nothing else |
| `LockfileGson.GsonBuilder.Create` | src/main/java/com/google/devtools/build/lib/bazel/bzlmod/jsontypefactories/TypeAdapterUtil.java:118-120 | the Gson holds exactly the builder's current registrations, and the builder is unchanged |
| `LockfileGson.TypeAdapterUtil.constructor` | src/main/java/com/google/devtools/build/lib/bazel/bzlmod/jsontypefactories/TypeAdapterUtil.java:103-110 | the shared builder starts with the reflective factory, then the Dict, ImmutableMap, ImmutableList and ImmutableBiMap factories, then the Version adapter, then the ModuleKey adapter, and no Registry adapter |
| `LockfileGson.TypeAdapterUtil.GetLockfileGsonWithTypeAdapters` | src/main/java/com/google/devtools/build/lib/bazel/bzlmod/jsontypefactories/TypeAdapterUtil.java:117-120 | appends exactly one Registry adapter for the given factory after all existing registrations of the shared builder, leaves earlier entries unchanged, and returns a snapshot of the whole builder |
| `LockfileGson.RegistryAdaptersOfAssembly` | src/main/java/com/google/devtools/build/lib/bazel/bzlmod/jsontypefactories/TypeAdapterUtil.java:103-120 | after n calls, the shared builder holds exactly n Registry adapters, bound to the calls' factories in call order |
| `LockfileGson.BaseResolution` | src/main/java/com/google/devtools/build/lib/bazel/bzlmod/jsontypefactories/TypeAdapterUtil.java:103-110 | with no call made yet, the initial registrations bind Version and ModuleKey to their adapters and bind no Registry adapter |
| `LockfileGson.ResolveAppend` | src/main/java/com/google/devtools/build/lib/bazel/bzlmod/jsontypefactories/TypeAdapterUtil.java:118-119 | under the assumed last-registration-wins rule, a registration appended for a class shadows every earlier one for it |
| `LockfileGson.ResolveAfterCalls` | src/main/java/com/google/devtools/build/lib/bazel/bzlmod/jsontypefactories/TypeAdapterUtil.java:103-120 | under the assumed rule, a snapshot taken after calls with some factories reads Version and ModuleKey with their adapters, and reads Registry with the adapter of the last call's factory (none before any call) |
| `LockfileGson.AssembleTwice` | src/main/java/com/google/devtools/build/lib/bazel/bzlmod/jsontypefactories/TypeAdapterUtil.java:117-120 | after two calls with different factories, the second snapshot holds both Registry adapters and resolves to the second factory; the first snapshot still resolves to the first |

## Left out

- JSON streaming: `JsonReader` and `JsonWriter` are reduced to one string token. Their `IOException`s and `nextString()` on a token that is not a string are not modelled.
- The semantics of `Version` (parsing, printing, ordering), of `ModuleKey.toString` and of `RegistryFactory` (URL resolution, caching) are not part of this model. They are abstract. The round trips hold only under the assumptions stated in their lemmas, because the adapters do not guarantee them by themselves.
- `Resolve`: Gson's lookup rule (the last adapter registered for a class wins) is Gson's code, which is not part of this model. It is stated as an assumption, and the lemmas about which adapter is used rest on it. Real Gson consults every registration, factories included, newest first; `Resolve` skips the factories. The two agree for this builder only because every factory is registered before every adapter.
- RegistryRoundTrip: `RegistryFactory.getRegistryWithUrl` is modelled as a deterministic function of the factory and the URL, so "the same registry" means "the registry the factory gives for that URL". A Bazel factory may build a fresh handle on each call; what carries over to it is that the registry read back has the written URL.
- The reflective `GenerateTypeAdapter.FACTORY` and the four collection adapter factories are registration entries only. What they read and write is not modelled.
- The concurrency hazard of the shared static builder is not modelled. Only the sequential build-up across calls is.
- The message of the `IndexOutOfBoundsException` is not modelled; only its index and list size are.
