/**
  Assembly of the Gson instance the Bazel lockfile is read and written
  with. One builder is shared by the whole process: it is filled once with
  a fixed list of registrations, and every request for a lockfile Gson
  appends a further `Registry` adapter to that same builder before taking
  a snapshot of it.
 */
module LockfileGson {
  import opened Wrappers
  import opened Bzlmod

  /** The Gson type-adapter factories the builder is given; only their identity is modelled. */
  datatype AdapterFactory =
    /** `GenerateTypeAdapter.FACTORY`: reflective adapters for AutoValue classes. */
    | GenerateTypeAdapterFactory
    | DictTypeAdapterFactory
    | ImmutableMapTypeAdapterFactory
    /** Bazel spells this class `ImmutableListTypeAdatperFactory`. */
    | ImmutableListTypeAdapterFactory
    | ImmutableBiMapTypeAdapterFactory

  /** The classes `registerTypeAdapter` binds an adapter to. */
  datatype ScalarType = VersionClass | ModuleKeyClass | RegistryClass

  /** The adapters of `TypeAdapters`; a Registry adapter is bound to the factory it was built with. */
  datatype TypeAdapter =
    | VersionTypeAdapter
    | ModuleKeyTypeAdapter
    | RegistryTypeAdapter(registryFactory: RegistryFactory)

  datatype Registration =
    | FactoryRegistration(factory: AdapterFactory)
    | AdapterRegistration(forType: ScalarType, adapter: TypeAdapter)

  /** What `GsonBuilder.create()` returns: a snapshot of the builder's registrations. */
  datatype Gson = Gson(registrations: seq<Registration>)

  /** The registrations the shared builder is initialised with, in order. */
  function BaseRegistrations(): seq<Registration>
  {
    [ FactoryRegistration(GenerateTypeAdapterFactory),
      FactoryRegistration(DictTypeAdapterFactory),
      FactoryRegistration(ImmutableMapTypeAdapterFactory),
      FactoryRegistration(ImmutableListTypeAdapterFactory),
      FactoryRegistration(ImmutableBiMapTypeAdapterFactory),
      AdapterRegistration(VersionClass, VersionTypeAdapter),
      AdapterRegistration(ModuleKeyClass, ModuleKeyTypeAdapter) ]
  }

  function RegistryRegistration(factory: RegistryFactory): Registration
  {
    AdapterRegistration(RegistryClass, RegistryTypeAdapter(factory))
  }

  /** One Registry registration per factory, in the order of `factories`. */
  function RegistryRegistrations(factories: seq<RegistryFactory>): seq<Registration>
  {
    if factories == [] then []
    else RegistryRegistrations(factories[..|factories| - 1]) + [RegistryRegistration(factories[|factories| - 1])]
  }

  /** The factories of the Registry adapters among `regs`, in registration order. */
  function RegistryFactories(regs: seq<Registration>): seq<RegistryFactory>
  {
    if regs == [] then []
    else
      var last := regs[|regs| - 1];
      RegistryFactories(regs[..|regs| - 1])
        + (if last.AdapterRegistration? && last.adapter.RegistryTypeAdapter? then [last.adapter.registryFactory] else [])
  }

  /**
    ASSUMED lookup rule of Gson, whose code is not part of this model: of
    the adapters registered for a class, the one registered last is used;
    `None` means that no adapter was registered for it, so Gson falls back
    to the factories. Gson itself consults every registration, factories
    included, newest first; this rule skips the factories, and the two agree
    here only because every factory is registered before every adapter.
   */
  function Resolve(regs: seq<Registration>, t: ScalarType): Option<TypeAdapter>
  {
    if regs == [] then None
    else
      var last := regs[|regs| - 1];
      if last.AdapterRegistration? && last.forType == t then Some(last.adapter)
      else Resolve(regs[..|regs| - 1], t)
  }

  lemma {:induction false} RegistryFactoriesAppend(a: seq<Registration>, b: seq<Registration>)
    ensures RegistryFactories(a + b) == RegistryFactories(a) + RegistryFactories(b)
    decreases |b|
  {
    if b == [] {
      assert a + b == a;
    } else {
      assert (a + b)[..|a + b| - 1] == a + b[..|b| - 1];
      RegistryFactoriesAppend(a, b[..|b| - 1]);
    }
  }

  /** A later registration for `t` shadows every earlier one. */
  lemma {:induction false} ResolveAppend(a: seq<Registration>, b: seq<Registration>, t: ScalarType)
    ensures Resolve(a + b, t) == if Resolve(b, t).Some? then Resolve(b, t) else Resolve(a, t)
    decreases |b|
  {
    if b == [] {
      assert a + b == a;
    } else {
      assert (a + b)[..|a + b| - 1] == a + b[..|b| - 1];
      ResolveAppend(a, b[..|b| - 1], t);
    }
  }

  /** Factory registrations bind no class and hold no Registry adapter. */
  lemma {:induction false} FactoriesOnly(regs: seq<Registration>, t: ScalarType)
    requires forall i :: 0 <= i < |regs| ==> regs[i].FactoryRegistration?
    ensures Resolve(regs, t) == None
    ensures RegistryFactories(regs) == []
    decreases |regs|
  {
    if regs != [] {
      FactoriesOnly(regs[..|regs| - 1], t);
    }
  }

  /** What the base registrations alone resolve to. */
  lemma BaseResolution(t: ScalarType)
    ensures Resolve(BaseRegistrations(), t)
         == match t
            case VersionClass => Some(VersionTypeAdapter)
            case ModuleKeyClass => Some(ModuleKeyTypeAdapter)
            case RegistryClass => None
    ensures RegistryFactories(BaseRegistrations()) == []
  {
    var base := BaseRegistrations();
    var factories := base[..5];
    var version := [AdapterRegistration(VersionClass, VersionTypeAdapter)];
    var moduleKey := [AdapterRegistration(ModuleKeyClass, ModuleKeyTypeAdapter)];
    assert base == factories + version + moduleKey;
    FactoriesOnly(factories, t);
    ResolveAppend(factories, version, t);
    ResolveAppend(factories + version, moduleKey, t);
    RegistryFactoriesAppend(factories, version);
    RegistryFactoriesAppend(factories + version, moduleKey);
  }

  /**
    After calls with `factories`, the builder holds exactly one Registry
    adapter per call, bound to that call's factory, in call order.
   */
  lemma RegistryAdaptersOfAssembly(factories: seq<RegistryFactory>)
    ensures RegistryFactories(BaseRegistrations() + RegistryRegistrations(factories)) == factories
  {
    RegistryFactoriesAppend(BaseRegistrations(), RegistryRegistrations(factories));
    BaseResolution(RegistryClass);
    RegistryFactoriesOfRegistrations(factories);
  }

  lemma {:induction false} RegistryFactoriesOfRegistrations(factories: seq<RegistryFactory>)
    ensures RegistryFactories(RegistryRegistrations(factories)) == factories
    decreases |factories|
  {
    if factories != [] {
      var init := factories[..|factories| - 1];
      var last := [RegistryRegistration(factories[|factories| - 1])];
      RegistryFactoriesOfRegistrations(init);
      RegistryFactoriesAppend(RegistryRegistrations(init), last);
    }
  }

  /** Registry registrations bind only the Registry class, the last one winning. */
  lemma {:induction false} ResolveRegistryRegistrations(factories: seq<RegistryFactory>, t: ScalarType)
    ensures Resolve(RegistryRegistrations(factories), t)
         == if t != RegistryClass || factories == [] then None
            else Some(RegistryTypeAdapter(factories[|factories| - 1]))
    decreases |factories|
  {
    if factories != [] {
      var init := factories[..|factories| - 1];
      var regs := RegistryRegistrations(factories);
      ResolveRegistryRegistrations(init, t);
    }
  }

  /**
    Under the assumed lookup rule, a Gson snapshot taken after calls with
    `factories` reads `Version` and `ModuleKey` with their adapters, and
    `Registry` with the adapter of the LAST call's factory (none before any call).
   */
  lemma ResolveAfterCalls(factories: seq<RegistryFactory>)
    ensures Resolve(BaseRegistrations() + RegistryRegistrations(factories), VersionClass) == Some(VersionTypeAdapter)
    ensures Resolve(BaseRegistrations() + RegistryRegistrations(factories), ModuleKeyClass) == Some(ModuleKeyTypeAdapter)
    ensures Resolve(BaseRegistrations() + RegistryRegistrations(factories), RegistryClass)
         == if factories == [] then None else Some(RegistryTypeAdapter(factories[|factories| - 1]))
  {
    ResolveAppend(BaseRegistrations(), RegistryRegistrations(factories), VersionClass);
    ResolveAppend(BaseRegistrations(), RegistryRegistrations(factories), ModuleKeyClass);
    ResolveAppend(BaseRegistrations(), RegistryRegistrations(factories), RegistryClass);
    ResolveRegistryRegistrations(factories, VersionClass);
    ResolveRegistryRegistrations(factories, ModuleKeyClass);
    ResolveRegistryRegistrations(factories, RegistryClass);
    BaseResolution(VersionClass);
    BaseResolution(ModuleKeyClass);
    BaseResolution(RegistryClass);
  }

  /** Gson's builder, reduced to the list of registrations it accumulates. */
  class GsonBuilder {
    var registrations: seq<Registration>

    constructor ()
      ensures registrations == []
    {
      registrations := [];
    }

    method RegisterTypeAdapterFactory(factory: AdapterFactory)
      modifies this
      ensures registrations == old(registrations) + [FactoryRegistration(factory)]
    {
      registrations := registrations + [FactoryRegistration(factory)];
    }

    method RegisterTypeAdapter(t: ScalarType, adapter: TypeAdapter)
      modifies this
      ensures registrations == old(registrations) + [AdapterRegistration(t, adapter)]
    {
      registrations := registrations + [AdapterRegistration(t, adapter)];
    }

    /** A snapshot: later registrations on this builder do not reach the returned Gson. */
    method Create() returns (gson: Gson)
      ensures gson.registrations == registrations
    {
      gson := Gson(registrations);
    }
  }

  /**
    The static state of `TypeAdapterUtil`: the shared builder `adapterGson`.
    The ghost `calls` records the factory of every
    `GetLockfileGsonWithTypeAdapters` call so far.
   */
  class TypeAdapterUtil {
    const adapterGson: GsonBuilder
    ghost var calls: seq<RegistryFactory>

    ghost predicate Valid()
      reads this, adapterGson
    {
      adapterGson.registrations == BaseRegistrations() + RegistryRegistrations(calls)
    }

    /** The static initialiser of `adapterGson`. */
    constructor ()
      ensures Valid() && calls == []
      ensures adapterGson.registrations == BaseRegistrations()
      ensures fresh(adapterGson)
    {
      var builder := new GsonBuilder();
      builder.RegisterTypeAdapterFactory(GenerateTypeAdapterFactory);
      builder.RegisterTypeAdapterFactory(DictTypeAdapterFactory);
      builder.RegisterTypeAdapterFactory(ImmutableMapTypeAdapterFactory);
      builder.RegisterTypeAdapterFactory(ImmutableListTypeAdapterFactory);
      builder.RegisterTypeAdapterFactory(ImmutableBiMapTypeAdapterFactory);
      builder.RegisterTypeAdapter(VersionClass, VersionTypeAdapter);
      builder.RegisterTypeAdapter(ModuleKeyClass, ModuleKeyTypeAdapter);
      adapterGson := builder;
      calls := [];
    }

    /**
      Appends one Registry adapter for `factory` to the SHARED builder, after
      everything already in it, and returns a snapshot of the whole builder.
     */
    method GetLockfileGsonWithTypeAdapters(factory: RegistryFactory) returns (gson: Gson)
      requires Valid()
      modifies this, adapterGson
      ensures Valid() && calls == old(calls) + [factory]
      ensures adapterGson.registrations == old(adapterGson.registrations) + [RegistryRegistration(factory)]
      ensures gson.registrations == adapterGson.registrations
    {
      adapterGson.RegisterTypeAdapter(RegistryClass, RegistryTypeAdapter(factory));
      calls := calls + [factory];
      gson := adapterGson.Create();
    }
  }

  /**
    Two assemblies with different factories: the second snapshot holds both
    Registry adapters and resolves to the second factory, while the first
    snapshot keeps resolving to the first.
   */
  method AssembleTwice(util: TypeAdapterUtil, first: RegistryFactory, second: RegistryFactory)
    returns (earlier: Gson, later: Gson)
    requires util.Valid() && util.calls == []
    modifies util, util.adapterGson
    ensures RegistryFactories(earlier.registrations) == [first]
    ensures RegistryFactories(later.registrations) == [first, second]
    ensures Resolve(earlier.registrations, RegistryClass) == Some(RegistryTypeAdapter(first))
    ensures Resolve(later.registrations, RegistryClass) == Some(RegistryTypeAdapter(second))
  {
    earlier := util.GetLockfileGsonWithTypeAdapters(first);
    later := util.GetLockfileGsonWithTypeAdapters(second);
    RegistryAdaptersOfAssembly([first]);
    RegistryAdaptersOfAssembly([first, second]);
    ResolveAfterCalls([first]);
    ResolveAfterCalls([first, second]);
  }
}
