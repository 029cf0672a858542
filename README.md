# UnrealDI container core in Dafny

This project models the registration and iteration engine of UnrealDI, a dependency-injection container for Unreal Engine, and proves properties of it.

- **Builder.** `FObjectContainerBuilder` commits its pending registrations into a new `UObjectContainer`.
  - Each registration gets one shared lifetime handler. The handler is bound under every declared interface key, or under the implementation class when none is declared.
  - The container then registers itself under `IResolver` and `IInjector`. It registers as `IInjectorProvider` too, unless a custom provider is already found in it or its parents.
  - Finally the container is finalized, which caches its inheritance chain, and the auto-create registrations are resolved.
- **ByInterfaces.** The configurator operation collects a class's interfaces, and optionally those of all its superclasses, with `AddUnique`.
- **Iterator.** `FObjectContainerIteratorBase` is a lazy cursor of three `int16` indices (container, map slot, array position). It runs over the registration maps of a list of containers, skips holes in the maps, and filters keys by `IsChildOf` the desired class.
- **IResolver.** The contract of the strict and `Try*` resolution calls and of `IsRegistered`, stated over the inheritance chain. The nearest container that registers a key answers.

How the engine is represented:

| engine concept | model |
|---|---|
| Class identity | the `ClassKey` datatype |
| Reflection | a `Hierarchy` value: an acyclic superclass function plus each class's own interface list |
| Container's `TMap<UClass*, FResolversArray>` | its storage layout, a `seq<Option<Slot>>`. A slot may be a hole; a used slot holds a key and its insertion-ordered resolver array |
| Lifetime handler | identified by its owning container and its ordinal there |

Files:

| file | contents |
|---|---|
| `wrappers.dfy` | Option and Result |
| `class_model.dfy` | class keys and the hierarchy |
| `registrations.dfy` | registration table, `AddRegistration` as `Add`, and the lookup lemmas |
| `resolution.dfy` | the IResolver contract over a chain of tables |
| `registration_configurator.dfy` | configurators, `AddUnique`, `ByInterfaces` |
| `object_container.dfy` | the `ObjectContainer` class: parent link, table, inheritance chain, `FindResolver`, `CreateIterator` |
| `container_iterator.dfy` | the iterator class, its `Advance` loops, and its specification `PositionsFrom` |
| `builder.dfy` | the commit loops, `Build`, `BuildNested` |
| `scenarios.dfy` | the counts and registrations the repository's tests check, proved for every registration list |

The builder's handling of the effective class follows the code, not the prose description:
- A registration with no interface keys is bound with its effective class (`EffectiveClassPtr`).
- Its interface bindings carry the implementation class (`ImplClass`).

## Model

| member | source | states |
|---|---|---|
| Configurators.AddUnique | UnrealDI/Source/UnrealDI/Public/DI/Impl/Operations/ByInterfacesOperation.h:35 | The element ends up in the result and the old list is kept as a prefix. The length grows by one exactly when the element was absent, membership is the old set plus the element, and no duplicate is introduced |
| Configurators.AppendUnique | UnrealDI/Source/UnrealDI/Public/DI/Impl/Operations/ByInterfacesOperation.h:33-36 | Adding a list keeps the old entries as a prefix, contains exactly the old and the new keys, and preserves duplicate-freedom |
| Configurators.AppendUniqueConcat | UnrealDI/Source/UnrealDI/Public/DI/Impl/Operations/ByInterfacesOperation.h:31-39 | Adding `ys` and then `zs` equals adding `ys + zs`, so new keys follow discovery order across the loop's rounds |
| Configurators.InterfacesAlongSuper | UnrealDI/Source/UnrealDI/Public/DI/Impl/Operations/ByInterfacesOperation.h:38-39 | With CurrentAndSuper, an interface is collected iff the class or one of its superclasses declares it |
| Configurators.ByInterfacesResult | UnrealDI/Source/UnrealDI/Public/DI/Impl/Operations/ByInterfacesOperation.h:26-42 | After ByInterfaces the old keys keep their positions and no duplicate appears. CurrentClass adds exactly the class's own interfaces; CurrentAndSuper adds those of every superclass |
| Configurators.RegistrationConfigurator.AddInterfaces | UnrealDI/Source/UnrealDI/Public/DI/Impl/Operations/ByInterfacesOperation.h:33-36 | The inner loop leaves `interfaceTypes` equal to AddUnique of each interface in order |
| Configurators.RegistrationConfigurator.ByInterfaces | UnrealDI/Source/UnrealDI/Public/DI/Impl/Operations/ByInterfacesOperation.h:26-42 | The do-while returns the same configurator, and `interfaceTypes` becomes the AddUnique of the interfaces along the searched classes; auto-create is untouched |
| Configurators.CreateLifetimeHandler | UnrealDI/Source/UnrealDI/Public/DI/Impl/RegistrationConfigurator_ForInstance.h:39-42 | The handler belongs to the given container and ordinal. An instance registration gets an instance handler wrapping its stored object and never a constructing handler |
| Configurators.RegistrationConfigurator.ForInstance | UnrealDI/Source/UnrealDI/Public/DI/Impl/RegistrationConfigurator_ForInstance.h:28-32 | The implementation class is the declared (static) class of the instance, the registration holds that instance, and no interface keys or auto-create are set |
| Configurators.RegistrationConfigurator.As | UnrealDI/Source/UnrealDI/Public/DI/Impl/RegistrationConfigurator_ForInstance.h:18 | Returns the same configurator, with the key AddUnique'd to `interfaceTypes` |
| Configurators.RegistrationConfigurator.AsSelf | UnrealDI/Source/UnrealDI/Public/DI/Impl/RegistrationConfigurator_ForInstance.h:19 | Returns the same configurator, with the implementation class AddUnique'd to `interfaceTypes` |
| Configurators.RegistrationConfigurator.AutoCreate | UnrealDI/Source/UnrealDI/Private/ObjectContainerBuilder.cpp:75 | Available on type registrations only: the instance configurator does not mix it in. Sets the flag the auto-create loop tests and leaves the interface keys unchanged |
| Configurators.RegistrationConfigurator.ForType | UnrealDITests/Source/UnrealDITests/Private/ObjectContainerBuilder.spec.cpp:28-37 | A type registration of the class with the given lifetime, with no interface keys |
| Registrations.FindSlot | UnrealDI/Source/UnrealDI/Public/DI/ObjectContainer.h:115 | A found slot holds the key; when none is found, no used slot holds the key |
| Registrations.LookupAdd | UnrealDI/Source/UnrealDI/Public/DI/ObjectContainer.h:91 | AddRegistration keeps the table well formed (one slot per key, no empty array). It appends the resolver to its own key's array and adds exactly one entry |
| Registrations.AddLookupOther | UnrealDI/Source/UnrealDI/Public/DI/ObjectContainer.h:91 | AddRegistration leaves every other key's array unchanged |
| Registrations.LookupAddAll | UnrealDI/Source/UnrealDI/Private/ObjectContainerBuilder.cpp:37-52 | After a sequence of AddRegistration calls, each key's array is its old array followed by the resolvers bound under it, in call order; the entry count grows by the number of calls |
| Registrations.AddAllConcat | UnrealDI/Source/UnrealDI/Private/ObjectContainerBuilder.cpp:37-67 | Running two call sequences one after the other equals running their concatenation |
| Registrations.ResolversForConcat | UnrealDI/Source/UnrealDI/Private/ObjectContainerBuilder.cpp:37-60 | The resolvers a concatenation binds under a key are those of the first part followed by those of the second |
| Registrations.ResolversForNonEmpty | UnrealDI/Source/UnrealDI/Private/ObjectContainerBuilder.cpp:41-51 | A call sequence binds something under `k` exactly when one of its calls has key `k` |
| Resolution.NearestIndex | UnrealDI/Source/UnrealDI/Private/ObjectContainerBuilder.cpp:62-63 | The result is the last container in the chain that registers the key; no container after it does, and None means none does |
| Resolution.FindResolver | UnrealDI/Source/UnrealDI/Private/ObjectContainerBuilder.cpp:63 | Finds a resolver iff some container of the chain registers the key. It returns the first resolver of the nearest such container, and no nearer container registers the key |
| Resolution.FindResolverSelfOrParent | UnrealDI/Source/UnrealDI/Private/ObjectContainerBuilder.cpp:62-63 | A container that registers the key answers with its own first resolver; otherwise the answer is the parents' |
| Resolution.AllEntriesShape | UnrealDI/Source/UnrealDI/Public/DI/ObjectContainer.h:114-115 | The chain-wide entry list has the summed length of the arrays and runs in container order, parents first. Each entry is a resolver stored in its container's array for the key |
| Resolution.AllEntriesComplete | UnrealDI/Source/UnrealDI/Public/DI/IResolver.h:49-50 | Every stored resolver is in the collection, in place. Container i's whole array, in registration order, follows the SumLengths(chain[..i]) entries of the containers before it. So nothing is missing or repeated |
| Resolution.AllEntriesBlock | UnrealDI/Source/UnrealDI/Public/DI/IResolver.h:49-50 | The entries of containers 0..i-1, followed by container i's array, form a prefix of the collection |
| Resolution.AllEntriesPrefix | UnrealDI/Source/UnrealDI/Public/DI/IResolver.h:49-50 | The entries of the first m containers form a prefix of the whole chain's entries |
| Resolution.AllEntriesLength | UnrealDI/Source/UnrealDI/Public/DI/IResolver.h:49-50 | The collection's size is the sum of the chain's array lengths for the key |
| Resolution.RegisteredIffEntries | UnrealDI/Source/UnrealDI/Public/DI/IResolver.h:113-114 | IsRegistered holds iff the chain holds at least one entry for the key |
| Resolution.AllEntriesContainFound | UnrealDI/Source/UnrealDI/Public/DI/IResolver.h:49-50 | The resolver single resolution uses is among the entries ResolveAll returns |
| Resolution.Resolve | UnrealDI/Source/UnrealDI/Public/DI/IResolver.h:29-30 | Fails with NotRegistered exactly when the type is not registered (where the source asserts); otherwise returns the object of the nearest resolver |
| Resolution.TryResolve | UnrealDI/Source/UnrealDI/Public/DI/IResolver.h:71-72 | Returns null when the type is not registered; otherwise returns what Resolve returns |
| Resolution.ResolveAll | UnrealDI/Source/UnrealDI/Public/DI/IResolver.h:49-50 | Fails exactly when the type is not registered. Otherwise it returns every entry over the chain, which is non-empty and contains the one Resolve uses |
| Resolution.TryResolveAll | UnrealDI/Source/UnrealDI/Public/DI/IResolver.h:91-92 | Empty when the type is not registered; otherwise what ResolveAll returns |
| Resolution.ResolveFactory | UnrealDI/Source/UnrealDI/Public/DI/IResolver.h:60-61 | Fails exactly when the type is not registered; otherwise a valid factory bound to the nearest resolver |
| Resolution.TryResolveFactory | UnrealDI/Source/UnrealDI/Public/DI/IResolver.h:102-103 | The factory is valid iff the type is registered, and then equals ResolveFactory's |
| Containers.ObjectContainer.Lineage | UnrealDI/Source/UnrealDI/Public/DI/ObjectContainer.h:119 | The chain ends with the container itself and holds only it and its ancestors |
| Containers.ObjectContainer.ChainTables | UnrealDI/Source/UnrealDI/Public/DI/ObjectContainer.h:111-115 | The tables of the parents, root first, followed by the container's own table; every table is well formed |
| Containers.ObjectContainer.ParentTables | UnrealDI/Source/UnrealDI/Public/DI/ObjectContainer.h:111-112 | The parents' tables are all well formed |
| Containers.TablesOf | UnrealDI/Source/UnrealDI/Public/DI/ObjectContainer.h:76 | One table per container, in the same order |
| Containers.ObjectContainer.constructor | UnrealDI/Source/UnrealDI/Public/DI/ObjectContainer.h:108-119 | A new container has no registrations, no parent, no outer for new objects and an empty chain |
| Containers.ObjectContainer.SetParentContainer | UnrealDI/Source/UnrealDI/Private/ObjectContainerBuilder.cpp:20 | Linking a parent keeps the parent chain finite and acyclic. The new container's parent tables become the parent's chain, and its lineage becomes the parent's lineage plus itself |
| Containers.ObjectContainer.AddRegistration | UnrealDI/Source/UnrealDI/Public/DI/ObjectContainer.h:91 | The table becomes `Add(old, binding)` and stays well formed; the parents are untouched |
| Containers.ObjectContainer.AppendInheritanceChain | UnrealDI/Source/UnrealDI/Public/DI/ObjectContainer.h:102 | Appends the lineage, most-parent container first, to the given chain |
| Containers.ObjectContainer.FinalizeCreation | UnrealDI/Source/UnrealDI/Public/DI/ObjectContainer.h:92 | Afterwards the cached inheritance chain is the lineage from the root parent to this container, and the parents' tables are unchanged |
| Containers.ObjectContainer.FindResolver | UnrealDI/Source/UnrealDI/Public/DI/ObjectContainer.h:96 | Finds a resolver iff the key is registered in the chain. The one found is the chain-level nearest resolver, owned by this container or an ancestor |
| Containers.ObjectContainer.FindResolverOwner | UnrealDI/Source/UnrealDI/Public/DI/ObjectContainer.h:96 | The container returned with the resolver is exactly the lineage member at the index the chain-level lookup picks: the nearest container that registers the key |
| Containers.ObjectContainer.LineageTables | UnrealDI/Source/UnrealDI/Public/DI/ObjectContainer.h:119 | The tables of the lineage are the chain tables |
| Containers.ObjectContainer.IteratedTablesFinalized | UnrealDI/Source/UnrealDI/Public/DI/ObjectContainer.h:73-77 | Once finalized, IncludeParent iterates the whole chain, parents first, and no flags iterates only the container's own table |
| Containers.ObjectContainer.CreateIterator | UnrealDI/Source/UnrealDI/Public/DI/ObjectContainer.h:72-78 | The new iterator runs over the selected tables and will yield exactly all their matching positions |
| ContainerIterator.RunIndex | UnrealDI/Source/UnrealDI/Private/ObjectContainerIterator.cpp:74-80 | The i-th position of an array run is the run's start plus i |
| ContainerIterator.RunExact | UnrealDI/Source/UnrealDI/Private/ObjectContainerIterator.cpp:74-80 | An array run holds exactly the positions of its index range, increasing |
| ContainerIterator.PositionsFromExact | UnrealDI/Source/UnrealDI/Private/ObjectContainerIterator.cpp:51-86 | From a cursor on, the traversal holds exactly the matching positions not before the cursor (used slot, key a child of the desired class, index in its array), in strictly increasing (container, slot, index) order |
| ContainerIterator.PositionsFromCount | UnrealDI/Source/UnrealDI/Private/ObjectContainerIterator.cpp:51-86 | The traversal's length is the sum of the array lengths of matching keys in the remaining slots and containers |
| ContainerIterator.AllPositionsCount | UnrealDITests/Source/UnrealDITests/Private/ObjectContainerIterator.spec.cpp:20-30 | An iterator yields as many elements as the matching keys hold resolvers, over all given containers |
| ContainerIterator.PositionsFromAtMatch | UnrealDI/Source/UnrealDI/Private/ObjectContainerIterator.cpp:74-77 | At a matching position the traversal yields that position first |
| ContainerIterator.PositionsFromSkipSlot | UnrealDI/Source/UnrealDI/Private/ObjectContainerIterator.cpp:60-80 | Skipping a hole, a non-matching key or an exhausted array loses no element |
| ContainerIterator.PositionsFromNextContainer | UnrealDI/Source/UnrealDI/Private/ObjectContainerIterator.cpp:83-85 | Moving to the next container's first slot loses no element |
| ContainerIterator.ObjectContainerIterator.constructor | UnrealDI/Source/UnrealDI/Private/ObjectContainerIterator.cpp:15-23 | Starting at (0, 0, -1) and advancing leaves a valid cursor whose remaining elements are all matching positions; for an empty list the iterator is exhausted at once |
| ContainerIterator.ObjectContainerIterator.RemainingSplit | UnrealDI/Source/UnrealDI/Private/ObjectContainerIterator.cpp:51 | What remains is the current element followed by what comes after it |
| ContainerIterator.ObjectContainerIterator.CurrentResolver | UnrealDI/Source/UnrealDI/Private/ObjectContainerIterator.cpp:29-33 | The resolver read at the cursor is the one stored at the current position |
| ContainerIterator.ObjectContainerIterator.SeekInContainer | UnrealDI/Source/UnrealDI/Private/ObjectContainerIterator.cpp:58-81 | The inner loop stops at a matching position without skipping any element, or reports the container exhausted with nothing left in it |
| ContainerIterator.ObjectContainerIterator.Seek | UnrealDI/Source/UnrealDI/Private/ObjectContainerIterator.cpp:53-86 | The outer loop stops at a matching position without skipping any element, or reports that no element is left |
| ContainerIterator.ObjectContainerIterator.Step | UnrealDI/Source/UnrealDI/Private/ObjectContainerIterator.cpp:51-89 | The cursor after the step is at the next matching element, or is INDEX_NONE exactly when none is left |
| ContainerIterator.ObjectContainerIterator.Advance | UnrealDI/Source/UnrealDI/Private/ObjectContainerIterator.cpp:44-90 | Keeps the cursor valid and changes nothing on an exhausted iterator. What remains afterwards is exactly what came after the old current element |
| ContainerIterator.ObjectContainerIterator.Get | UnrealDI/Source/UnrealDI/Private/ObjectContainerIterator.cpp:25-42 | Returns the handler's existing object. It calls ResolveImpl exactly when that object is null and creation was requested, and then returns its result |
| ContainerIterator.Next | UnrealDI/Source/UnrealDI/Public/DI/ObjectContainerIterator.h:52-55 | Reads the current resolver and advances: the remaining elements lose exactly their head |
| ContainerIterator.VisitAll | UnrealDITests/Source/UnrealDITests/Private/ObjectContainerIterator.spec.cpp:230-240 | The client loop `for (; It; ++It)` exhausts the iterator and visits the resolver of every remaining position, in order |
| ClassModel.ChildOfObject | UnrealDITests/Source/UnrealDITests/Private/ObjectContainerIterator.spec.cpp:163 | In a hierarchy rooted at UObject every class is a child of UObject |
| Builder.Snapshots | UnrealDI/Source/UnrealDI/Private/ObjectContainerBuilder.cpp:37 | One registration value per configurator, in order |
| Builder.BindingsOf | UnrealDI/Source/UnrealDI/Private/ObjectContainerBuilder.cpp:41-51 | A registration makes one binding, or one per interface key when it has any |
| Builder.BindingsOfResolvers | UnrealDI/Source/UnrealDI/Private/ObjectContainerBuilder.cpp:39-51 | All bindings of one registration share its single handler. The effective class is the registered one for the self binding and the implementation class for interface bindings |
| Builder.BindingsOfKeys | UnrealDI/Source/UnrealDI/Private/ObjectContainerBuilder.cpp:41-51 | A registration binds `k` iff `k` is one of its interface keys, or it has none and `k` is its implementation class |
| Builder.UserBindings | UnrealDI/Source/UnrealDI/Private/ObjectContainerBuilder.cpp:37-52 | The user loop makes Σ max(1, \|interfaces\|) bindings |
| Builder.UserBindingsHandlers | UnrealDI/Source/UnrealDI/Private/ObjectContainerBuilder.cpp:39 | Every user binding carries the handler made for its own registration |
| Builder.UserBindingsKeys | UnrealDI/Source/UnrealDI/Private/ObjectContainerBuilder.cpp:37-52 | The user loop binds `k` iff some registration binds `k` |
| Builder.BuiltInsResolvers | UnrealDI/Source/UnrealDI/Private/ObjectContainerBuilder.cpp:56-60 | The two unconditional self-registrations bind the container under IResolver and IInjector and nothing else |
| Builder.AddAllBuiltIns | UnrealDI/Source/UnrealDI/Private/ObjectContainerBuilder.cpp:54-60 | After any bindings plus the two self-registrations, each key holds its old array, then its bindings, then the container for the two built-in keys; two more entries |
| Builder.BeforeInjectorProviderLookup | UnrealDI/Source/UnrealDI/Private/ObjectContainerBuilder.cpp:36-60 | The table before the IInjectorProvider decision, per key, and its entry count |
| Builder.CommittedLookup | UnrealDI/Source/UnrealDI/Private/ObjectContainerBuilder.cpp:32-67 | After the commit each key's array is its old array, then the user resolvers bound under it in registration order, then the container for the built-in keys. The entry count is old + bindings + 2 (+1 with the provider) |
| Builder.CommittedBinds | UnrealDI/Source/UnrealDI/Private/ObjectContainerBuilder.cpp:41-67 | After the commit a key is bound iff it already was, a registration binds it, or it is IResolver, IInjector, or IInjectorProvider added by the commit |
| Builder.InjectorProviderAfterCommit | UnrealDI/Source/UnrealDI/Private/ObjectContainerBuilder.cpp:62-67 | After the commit IInjectorProvider always resolves. It resolves to a container exactly when the commit added the container, so a custom provider is never overridden |
| Builder.AutoCreateKey | UnrealDI/Source/UnrealDI/Private/ObjectContainerBuilder.cpp:77 | The auto-create key is one the registration is bound under |
| Builder.AutoCreateKeysMembers | UnrealDI/Source/UnrealDI/Private/ObjectContainerBuilder.cpp:73-80 | A key is resolved after finalization iff it is the key of an auto-create registration, and then some registration binds it |
| Builder.AutoCreateRegistered | UnrealDI/Source/UnrealDI/Private/ObjectContainerBuilder.cpp:78 | Each registration's auto-create key is registered in the built container, so its Resolve never asserts |
| Builder.CommitRegistration | UnrealDI/Source/UnrealDI/Private/ObjectContainerBuilder.cpp:39-51 | One iteration of the user loop adds exactly that registration's bindings with one new handler; the parents are untouched |
| Builder.CommitRegistrations | UnrealDI/Source/UnrealDI/Private/ObjectContainerBuilder.cpp:37-52 | The user loop leaves the table equal to the old one plus all user bindings |
| Builder.AddContainerRegistrations | UnrealDI/Source/UnrealDI/Private/ObjectContainerBuilder.cpp:54-67 | The self-registrations, the provider one only when the self-or-parent lookup finds none or a container, give the committed table |
| Builder.CommitToContainer | UnrealDI/Source/UnrealDI/Private/ObjectContainerBuilder.cpp:36-67 | The container's table becomes the committed table of its old table; the parents are untouched |
| Builder.ResolveAutoCreated | UnrealDI/Source/UnrealDI/Private/ObjectContainerBuilder.cpp:73-80 | Resolves the auto-create keys in registration order, and each Resolve succeeds |
| Builder.CommitAndFinalize | UnrealDI/Source/UnrealDI/Private/ObjectContainerBuilder.cpp:32-81 | Commit, finalize and auto-create: the container is finalized with the committed table, and every auto-create key resolves successfully through its chain |
| Builder.ObjectContainerBuilder.AddRegistrationsToContainer | UnrealDI/Source/UnrealDI/Private/ObjectContainerBuilder.cpp:32-81 | The same for the builder's configurators as they are at the call |
| Builder.ObjectContainerBuilder.Build | UnrealDI/Source/UnrealDI/Private/ObjectContainerBuilder.cpp:6-14 | A fresh finalized root container, owned by the outer or the transient package. Its outer for new objects is the builder's or else its own outer, and it holds the committed table of the registrations |
| Builder.ObjectContainerBuilder.NewNestedContainer | UnrealDI/Source/UnrealDI/Private/ObjectContainerBuilder.cpp:18-20 | A fresh container owned by the parent, with the parent as parent container and the builder's outer for new objects, else the parent's |
| Builder.ObjectContainerBuilder.BuildNested | UnrealDI/Source/UnrealDI/Private/ObjectContainerBuilder.cpp:16-25 | A fresh finalized child of the parent. Its table is the commit against the parent's chain, its chain is the parent's plus its own table, and its inheritance chain is the parent's lineage plus itself |
| Builder.ObjectContainerBuilder.SetOuterForNewObjects | UnrealDI/Source/UnrealDI/Private/ObjectContainerBuilder.cpp:27-30 | Stores the outer |
| Builder.ObjectContainerBuilder.RegisterInstance | UnrealDITests/Source/UnrealDITests/Private/ObjectContainerBuilder.spec.cpp:101-110 | Appends a fresh ForInstance configurator whose registration binds the declared (static) class of the instance |
| Builder.ObjectContainerBuilder.RegisterType | UnrealDITests/Source/UnrealDITests/Private/ObjectContainerBuilder.spec.cpp:28-37 | Appends a fresh ForType configurator for the class |
| Scenarios.ObjectIteratorVisitsAll | UnrealDITests/Source/UnrealDITests/Private/ObjectContainerIterator.spec.cpp:168-178 | A UObject iterator over one container yields every entry of it |
| Scenarios.ObjectIteratorVisitsBoth | UnrealDITests/Source/UnrealDITests/Private/ObjectContainerIterator.spec.cpp:180-194 | A UObject iterator over a parent and a child yields every entry of both |
| Scenarios.BuiltEntries | UnrealDI/Source/UnrealDI/Private/ObjectContainerBuilder.cpp:54-67 | Registrations without IInjectorProvider under parents without a custom one: the provider is added, and the table holds the bindings plus three |
| Scenarios.BuiltLeavesNoCustomProvider | UnrealDI/Source/UnrealDI/Private/ObjectContainerBuilder.cpp:62-67 | Such a container leaves no custom provider to its children |
| Scenarios.RootObjectCount | UnrealDITests/Source/UnrealDITests/Private/ObjectContainerIterator.spec.cpp:158-178 | A root container's UObject iterator yields its bindings plus 3 |
| Scenarios.NestedObjectCount | UnrealDITests/Source/UnrealDITests/Private/ObjectContainerIterator.spec.cpp:180-194 | With IncludeParent, parent plus child yield (parent bindings + 3) + (child bindings + 3) |
| Scenarios.IteratorTestCounts | UnrealDITests/Source/UnrealDITests/Private/ObjectContainerIterator.spec.cpp:158-194 | The tests' counts: 3 for an empty build, 5 for two plain registrations, (3 + 2) * 2 for two such containers nested |
| Scenarios.EmptyChildYieldsNothing | UnrealDITests/Source/UnrealDITests/Private/ObjectContainerIterator.spec.cpp:46-58 | Without IncludeParent, a child with no registrations of its own yields nothing for a class only its parent registers |
| Scenarios.RootIsRegistered | UnrealDI/Source/UnrealDI/Private/ObjectContainerBuilder.cpp:41-67 | A root container registers a key iff a registration binds it or it is one of the three built-in keys |
| Scenarios.SingleIsRegistered | UnrealDITests/Source/UnrealDITests/Private/ObjectContainerBuilder.spec.cpp:28-37 | The same for a single registration |
| Scenarios.RegisterAsInterfaceTest | UnrealDITests/Source/UnrealDITests/Private/ObjectContainerBuilder.spec.cpp:50-60 | `As<IReader>()` registers IReader and not UMockReader |
| Scenarios.RegisterAsInterfaceAndSelfTest | UnrealDITests/Source/UnrealDITests/Private/ObjectContainerBuilder.spec.cpp:62-72 | `As<IReader>().AsSelf()` registers both |
| Scenarios.RegisterByInterfacesTest | UnrealDITests/Source/UnrealDITests/Private/ObjectContainerBuilder.spec.cpp:74-84 | `ByInterfaces()` on a class implementing IReader registers IReader and not the class |

## Left out

- These files are not part of this model: `ObjectContainer.cpp`, `Lifetimes.h`, `ObjectContainerBuilder.h`, and the `As`/`AsSelf`/`ForType` configurator headers.
  - `AddRegistration`, `FinalizeCreation`, `FindResolver`, `AppendInheritanceChain` and the IResolver functions follow their declarations and documented contracts, as a TMap FindOrAdd and a self-or-parent lookup.
  - `As`, `AsSelf`, `AutoCreate` and `ForType` follow their names and the builder's use of `InterfaceTypes` and `bAutoCreate`.
- `RegisterFactory` and the instance factories (`InstanceFactories`, `FindInstanceFactory`) are not modelled.
- `SingleInstance` is folded into the lifetime `ForType` is given.
- Typed template overloads and operator aliases (`Resolve<T>`, `operator bool`, `TScriptInterface` casts) are not modelled separately. They forward to the `UClass*` calls with the static class.
  - `HasValue` models `operator bool`.
  - `ContainerIterator.Next` models one round of a client loop: it reads the current resolver (`*It`) and then applies `operator++` (`Advance`).
- `InvokeWithDependencies`, `Inject`/`CanInject`, `GetInjector` and the container delegates are compile-time or engine facilities and are not modelled.
- Object construction, garbage collection, `NewObject` and `TSoftClassPtr` are not modelled.
  - How a lifetime handler creates or caches its object is an abstract input: `existing` and `resolveImpl` in `Get`, `resolveImpl` in the resolution calls.
  - Because of that, eagerly created singletons are not modelled, and the tests that call `Get(false)` on them are not derived.
- ContainerIterator.ObjectContainerIterator.Get: always takes the creation flag explicitly. The C++ default argument `Get()` corresponds to `Get(false, …)`.
- Builder.ObjectContainerBuilder.AddRegistrationsToContainer: commits the configurators' values as they are at the call; configurators changed during the commit are not modelled.
- Builder.ResolveAutoCreated: returns the resolved objects, which the source discards; only the resolution calls matter.
- ContainerIterator.ObjectContainerIterator.constructor: requires every index to fit in `int16` (`FitsInt16`). Past 32767 containers, slots or array entries the source's cursor would overflow, and this model does not describe that overflow.
  - Containers.ObjectContainer.CreateIterator carries the same requirement.
- The iterator holds the tables it runs over as values. Containers are not changed after finalization, so the iterator does not observe later changes to a container.
- `NewObject` ownership (`outer`) is recorded as a value. The container's `OuterForNewObjects` is modelled only as the value the builder assigns.
