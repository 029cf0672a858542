/** FObjectContainerBuilder: collects registrations and commits them into a
    new container. Each registration gets one lifetime handler, bound under
    every interface key it declares, or under its implementation class when
    it declares none. The container then registers itself as IResolver,
    IInjector and, unless a custom one is already registered, as
    IInjectorProvider; it is finalized and the auto-create registrations
    are resolved. */
module Builder {
  import opened Wrappers
  import opened ClassModel
  import opened Registrations
  import Resolution
  import opened Configurators
  import opened Containers

  /** The state of each configurator, in registration order. */
  function Snapshots(rs: seq<RegistrationConfigurator>): (r: seq<Registration>)
    reads rs
    ensures |r| == |rs| && forall i :: 0 <= i < |rs| ==> r[i] == rs[i].Snapshot()
  {
    if rs == [] then [] else Snapshots(rs[..|rs| - 1]) + [rs[|rs| - 1].Snapshot()]
  }

  /** Whether the commit binds registration `r` under key `k`. */
  predicate Binds(r: Registration, k: ClassKey) {
    (r.interfaceTypes == [] && k == r.implClass) || k in r.interfaceTypes
  }

  /** The bindings of the interface loop: each interface key gets a resolver
      whose effective class is the implementation class. */
  function InterfaceBindings(ifs: seq<ClassKey>, implClass: ClassKey, hd: Handler): seq<Binding> {
    seq(|ifs|, i requires 0 <= i < |ifs| => Binding(ifs[i], Resolver(implClass, hd)))
  }

  /** The AddRegistration calls made for one registration with handler `hd`. */
  function BindingsOf(r: Registration, hd: Handler): (bs: seq<Binding>)
    ensures |bs| == if r.interfaceTypes == [] then 1 else |r.interfaceTypes|
  {
    (if r.interfaceTypes == [] then [Binding(r.implClass, Resolver(r.effectiveClass, hd))] else [])
      + InterfaceBindings(r.interfaceTypes, r.implClass, hd)
  }

  /** All the bindings of one registration share its handler; the effective
      class is the registered one when the registration is bound under its
      implementation class, and the implementation class otherwise. */
  lemma BindingsOfResolvers(r: Registration, hd: Handler)
    ensures forall i :: 0 <= i < |BindingsOf(r, hd)| ==>
      BindingsOf(r, hd)[i].resolver == Resolver(if r.interfaceTypes == [] then r.effectiveClass else r.implClass, hd)
  {
  }

  /** A registration is bound under `k` exactly when `k` is one of its
      interface keys, or it has none and `k` is its implementation class. */
  lemma BindingsOfKeys(r: Registration, hd: Handler, k: ClassKey)
    ensures ResolversFor(BindingsOf(r, hd), k) != [] <==> Binds(r, k)
  {
    var bs := BindingsOf(r, hd);
    ResolversForNonEmpty(bs, k);
    if r.interfaceTypes == [] {
      assert bs[0].key == r.implClass;
    } else if k in r.interfaceTypes {
      var j :| 0 <= j < |r.interfaceTypes| && r.interfaceTypes[j] == k;
      assert bs[j].key == k;
    }
  }

  /** Σ max(1, |interfaceTypes|): how many bindings the registrations make. */
  function BindingCount(regs: seq<Registration>): nat
    decreases |regs|
  {
    if regs == [] then 0
    else
      var r := regs[|regs| - 1];
      BindingCount(regs[..|regs| - 1]) + (if r.interfaceTypes == [] then 1 else |r.interfaceTypes|)
  }

  /** The handler made for registration `j`. */
  function UserHandler(regs: seq<Registration>, owner: ObjectId, j: nat): Handler
    requires j < |regs|
  {
    CreateLifetimeHandler(regs[j].kind, owner, j)
  }

  /** The bindings of all user registrations, in registration order. */
  function UserBindings(regs: seq<Registration>, owner: ObjectId): (bs: seq<Binding>)
    ensures |bs| == BindingCount(regs)
    decreases |regs|
  {
    if regs == [] then []
    else
      var n := |regs| - 1;
      UserBindings(regs[..n], owner) + BindingsOf(regs[n], UserHandler(regs, owner, n))
  }

  /** The bindings of registration `j` carry the one handler made for it,
      the one with ordinal `j`. */
  lemma {:induction false} UserBindingsHandlers(regs: seq<Registration>, owner: ObjectId)
    ensures forall i :: 0 <= i < |UserBindings(regs, owner)| ==>
      var hd := UserBindings(regs, owner)[i].resolver.handler;
      hd.ordinal < |regs| && hd == UserHandler(regs, owner, hd.ordinal)
    decreases |regs|
  {
    if regs != [] {
      var n := |regs| - 1;
      UserBindingsHandlers(regs[..n], owner);
      BindingsOfResolvers(regs[n], UserHandler(regs, owner, n));
      assert forall j :: 0 <= j < n ==> UserHandler(regs[..n], owner, j) == UserHandler(regs, owner, j);
    }
  }

  predicate AnyBinds(regs: seq<Registration>, k: ClassKey) {
    exists j :: 0 <= j < |regs| && Binds(regs[j], k)
  }

  /** Some registration binds `k` exactly when one before the last does or
      the last one does. */
  lemma AnyBindsSnoc(regs: seq<Registration>, k: ClassKey)
    requires regs != []
    ensures AnyBinds(regs, k) <==> AnyBinds(regs[..|regs| - 1], k) || Binds(regs[|regs| - 1], k)
  {
    var n := |regs| - 1;
    if AnyBinds(regs[..n], k) {
      var j :| 0 <= j < n && Binds(regs[..n][j], k);
      assert regs[..n][j] == regs[j];
    }
    if AnyBinds(regs, k) && !Binds(regs[n], k) {
      var j :| 0 <= j < |regs| && Binds(regs[j], k);
      assert j < n && regs[..n][j] == regs[j];
    }
  }

  /** The user bindings bind `k` exactly when some registration does. */
  lemma {:induction false} UserBindingsKeys(regs: seq<Registration>, owner: ObjectId, k: ClassKey)
    ensures ResolversFor(UserBindings(regs, owner), k) != [] <==> AnyBinds(regs, k)
    decreases |regs|
  {
    if regs != [] {
      var n := |regs| - 1;
      var hd := UserHandler(regs, owner, n);
      UserBindingsKeys(regs[..n], owner, k);
      ResolversForConcat(UserBindings(regs[..n], owner), BindingsOf(regs[n], hd), k);
      BindingsOfKeys(regs[n], hd, k);
      AnyBindsSnoc(regs, k);
    }
  }

  /** FLifetimeHandler_Instance(Container): made after the user handlers. */
  function ContainerResolver(owner: ObjectId, ordinal: nat): Resolver {
    Resolver(ContainerClass, Handler(owner, ordinal, InstanceHandler(owner)))
  }

  /** The container registered as IResolver and as IInjector. */
  function BuiltIns(cr: Resolver): seq<Binding> {
    [Binding(ResolverInterface, cr), Binding(InjectorInterface, cr)]
  }

  /** The table before the IInjectorProvider decision. */
  function BeforeInjectorProvider(start: Table, regs: seq<Registration>, owner: ObjectId): Table {
    AddAll(start, UserBindings(regs, owner) + BuiltIns(ContainerResolver(owner, |regs|)))
  }

  /** An IInjectorProvider binding for the new container is added exactly
      when the self-or-parent lookup of that key finds nothing, or finds a
      container rather than a user-supplied provider. */
  predicate NeedsInjectorProvider(chain: Resolution.Chain) {
    var found := Resolution.FindResolver(chain, InjectorProviderInterface);
    found.None? || found.value.resolver.effectiveClass == ContainerClass
  }

  predicate AddsInjectorProvider(start: Table, parents: Resolution.Chain, regs: seq<Registration>, owner: ObjectId) {
    NeedsInjectorProvider(parents + [BeforeInjectorProvider(start, regs, owner)])
  }

  /** The container's table after the commit, from its table `start`. */
  function CommittedTable(start: Table, parents: Resolution.Chain, regs: seq<Registration>, owner: ObjectId): Table {
    var t := BeforeInjectorProvider(start, regs, owner);
    if AddsInjectorProvider(start, parents, regs, owner)
    then Add(t, Binding(InjectorProviderInterface, ContainerResolver(owner, |regs|)))
    else t
  }

  /** What the built-in registrations add under `k`. */
  function BuiltInResolvers(k: ClassKey, cr: Resolver, provider: bool): seq<Resolver> {
    if k == ResolverInterface || k == InjectorInterface || (k == InjectorProviderInterface && provider) then [cr] else []
  }

  /** The built-in bindings bind the container under IResolver and
      IInjector only. */
  lemma BuiltInsResolvers(cr: Resolver, k: ClassKey)
    ensures ResolversFor(BuiltIns(cr), k) == BuiltInResolvers(k, cr, false)
  {
    var bs := BuiltIns(cr);
    assert bs[1..][1..] == [];
    assert ResolversFor(bs[1..], k) == (if k == InjectorInterface then [cr] else []) + ResolversFor(bs[1..][1..], k);
  }

  /** Binding the container as IInjectorProvider too adds it under that key. */
  lemma BuiltInResolversProvider(x: seq<Resolver>, k: ClassKey, cr: Resolver)
    ensures x + BuiltInResolvers(k, cr, false) + (if k == InjectorProviderInterface then [cr] else [])
      == x + BuiltInResolvers(k, cr, true)
  {
    if k == InjectorProviderInterface {
      assert x + [] == x;
    } else {
      assert BuiltInResolvers(k, cr, false) + [] == BuiltInResolvers(k, cr, true);
    }
  }

  /** Any bindings and then the IResolver and IInjector bindings. */
  lemma AddAllBuiltIns(start: Table, us: seq<Binding>, cr: Resolver, k: ClassKey)
    requires WellFormed(start)
    ensures WellFormed(AddAll(start, us + BuiltIns(cr)))
    ensures Lookup(AddAll(start, us + BuiltIns(cr)), k) == Lookup(start, k) + ResolversFor(us, k) + BuiltInResolvers(k, cr, false)
    ensures Entries(AddAll(start, us + BuiltIns(cr))) == Entries(start) + |us| + 2
  {
    var bs := BuiltIns(cr);
    var mid := AddAll(start, us);
    LookupAddAll(start, us, k);
    AddAllConcat(start, us, bs);
    LookupAddAll(mid, bs, k);
    BuiltInsResolvers(cr, k);
  }

  /** The user bindings and then the IResolver and IInjector bindings. */
  lemma BeforeInjectorProviderLookup(start: Table, regs: seq<Registration>, owner: ObjectId, k: ClassKey)
    requires WellFormed(start)
    ensures WellFormed(BeforeInjectorProvider(start, regs, owner))
    ensures Lookup(BeforeInjectorProvider(start, regs, owner), k)
      == Lookup(start, k) + ResolversFor(UserBindings(regs, owner), k) + BuiltInResolvers(k, ContainerResolver(owner, |regs|), false)
    ensures Entries(BeforeInjectorProvider(start, regs, owner)) == Entries(start) + BindingCount(regs) + 2
  {
    AddAllBuiltIns(start, UserBindings(regs, owner), ContainerResolver(owner, |regs|), k);
  }

  /** Each key's array after the commit: what it held, then the user
      resolvers bound under it in registration order, then the container
      itself for the built-in keys. The table holds one entry per binding. */
  lemma CommittedLookup(start: Table, parents: Resolution.Chain, regs: seq<Registration>, owner: ObjectId, k: ClassKey)
    requires WellFormed(start)
    ensures WellFormed(CommittedTable(start, parents, regs, owner))
    ensures Lookup(CommittedTable(start, parents, regs, owner), k)
      == Lookup(start, k) + ResolversFor(UserBindings(regs, owner), k)
         + BuiltInResolvers(k, ContainerResolver(owner, |regs|), AddsInjectorProvider(start, parents, regs, owner))
    ensures Entries(CommittedTable(start, parents, regs, owner))
      == Entries(start) + BindingCount(regs) + 2 + (if AddsInjectorProvider(start, parents, regs, owner) then 1 else 0)
  {
    var cr := ContainerResolver(owner, |regs|);
    var t := BeforeInjectorProvider(start, regs, owner);
    BeforeInjectorProviderLookup(start, regs, owner, k);
    if AddsInjectorProvider(start, parents, regs, owner) {
      LookupAdd(t, Binding(InjectorProviderInterface, cr), k);
      BuiltInResolversProvider(Lookup(start, k) + ResolversFor(UserBindings(regs, owner), k), k, cr);
    }
  }

  /** A key is bound after the commit exactly when it was already, or some
      registration binds it, or it is one of the container's own keys. */
  lemma CommittedBinds(start: Table, parents: Resolution.Chain, regs: seq<Registration>, owner: ObjectId, k: ClassKey)
    requires WellFormed(start)
    ensures Lookup(CommittedTable(start, parents, regs, owner), k) != [] <==>
      || Lookup(start, k) != []
      || AnyBinds(regs, k)
      || k == ResolverInterface || k == InjectorInterface
      || (k == InjectorProviderInterface && AddsInjectorProvider(start, parents, regs, owner))
  {
    CommittedLookup(start, parents, regs, owner, k);
    UserBindingsKeys(regs, owner, k);
  }

  /** After the commit the container and its parents always resolve
      IInjectorProvider, and to a container exactly when no custom provider
      was registered before: a custom one is never overridden. */
  lemma InjectorProviderAfterCommit(start: Table, parents: Resolution.Chain, regs: seq<Registration>, owner: ObjectId)
    requires WellFormed(start)
    ensures var after := Resolution.FindResolver(parents + [CommittedTable(start, parents, regs, owner)], InjectorProviderInterface);
      && after.Some?
      && (after.value.resolver.effectiveClass == ContainerClass <==> AddsInjectorProvider(start, parents, regs, owner))
  {
    var k := InjectorProviderInterface;
    var t := BeforeInjectorProvider(start, regs, owner);
    var u := CommittedTable(start, parents, regs, owner);
    var cr := ContainerResolver(owner, |regs|);
    BeforeInjectorProviderLookup(start, regs, owner, k);
    Resolution.FindResolverSelfOrParent(parents, t, k);
    Resolution.FindResolverSelfOrParent(parents, u, k);
    if AddsInjectorProvider(start, parents, regs, owner) {
      LookupAdd(t, Binding(k, cr), k);
      assert Lookup(u, k) == Lookup(t, k) + [cr];
      assert Lookup(u, k)[0] == if Lookup(t, k) != [] then Lookup(t, k)[0] else cr;
    } else {
      assert u == t;
    }
  }

  /** The key an auto-create registration is resolved by. */
  function AutoCreateKey(r: Registration): (k: ClassKey)
    ensures Binds(r, k)
  {
    if |r.interfaceTypes| > 0 then r.interfaceTypes[0] else r.implClass
  }

  /** The keys resolved after finalization, in registration order. */
  function AutoCreateKeys(regs: seq<Registration>): seq<ClassKey>
    decreases |regs|
  {
    if regs == [] then []
    else
      var n := |regs| - 1;
      AutoCreateKeys(regs[..n]) + (if regs[n].autoCreate then [AutoCreateKey(regs[n])] else [])
  }

  /** A key is resolved after finalization exactly when it is the key of an
      auto-create registration; such a key is always bound by it. */
  lemma {:induction false} AutoCreateKeysMembers(regs: seq<Registration>, k: ClassKey)
    ensures k in AutoCreateKeys(regs) <==> exists j :: 0 <= j < |regs| && regs[j].autoCreate && AutoCreateKey(regs[j]) == k
    ensures k in AutoCreateKeys(regs) ==> AnyBinds(regs, k)
    decreases |regs|
  {
    if regs != [] {
      var n := |regs| - 1;
      AutoCreateKeysMembers(regs[..n], k);
      if exists j :: 0 <= j < n && regs[..n][j].autoCreate && AutoCreateKey(regs[..n][j]) == k {
        var j :| 0 <= j < n && regs[..n][j].autoCreate && AutoCreateKey(regs[..n][j]) == k;
        assert regs[j].autoCreate && AutoCreateKey(regs[j]) == k;
      }
      if exists j :: 0 <= j < |regs| && regs[j].autoCreate && AutoCreateKey(regs[j]) == k {
        var j :| 0 <= j < |regs| && regs[j].autoCreate && AutoCreateKey(regs[j]) == k;
        if j < n {
          assert regs[..n][j].autoCreate && AutoCreateKey(regs[..n][j]) == k;
        }
      }
      if k in AutoCreateKeys(regs) {
        var j :| 0 <= j < |regs| && regs[j].autoCreate && AutoCreateKey(regs[j]) == k;
        assert Binds(regs[j], k);
      }
    }
  }

  /** Every registration's auto-create key is registered once the
      container is built, so resolving it never fails. */
  lemma AutoCreateRegistered(start: Table, parents: Resolution.Chain, regs: seq<Registration>, owner: ObjectId, i: nat)
    requires WellFormed(start) && i < |regs|
    ensures Resolution.IsRegistered(parents + [CommittedTable(start, parents, regs, owner)], AutoCreateKey(regs[i]))
  {
    var k := AutoCreateKey(regs[i]);
    CommittedBinds(start, parents, regs, owner, k);
    var chain := parents + [CommittedTable(start, parents, regs, owner)];
    assert Resolution.RegistersAt(chain, |chain| - 1, k);
  }

  /** One more registration adds its key to the auto-create keys exactly
      when it is marked auto-create. */
  lemma AutoCreateKeysStep(regs: seq<Registration>, i: nat)
    requires i < |regs|
    ensures AutoCreateKeys(regs[..i + 1])
      == AutoCreateKeys(regs[..i]) + (if regs[i].autoCreate then [AutoCreateKey(regs[i])] else [])
  {
    assert regs[..i + 1][..i] == regs[..i];
  }

  /** One more round of the interface loop adds one more binding. */
  lemma AddAllInterfaceStep(t: Table, ifs: seq<ClassKey>, j: nat, implClass: ClassKey, hd: Handler)
    requires j < |ifs|
    ensures AddAll(t, InterfaceBindings(ifs[..j + 1], implClass, hd))
      == Add(AddAll(t, InterfaceBindings(ifs[..j], implClass, hd)), Binding(ifs[j], Resolver(implClass, hd)))
  {
    var b := Binding(ifs[j], Resolver(implClass, hd));
    assert InterfaceBindings(ifs[..j + 1], implClass, hd) == InterfaceBindings(ifs[..j], implClass, hd) + [b];
    AddAllConcat(t, InterfaceBindings(ifs[..j], implClass, hd), [b]);
    assert [b][1..] == [];
  }

  /** The body of the user-registration loop for registration number
      `ordinal`: one new handler, bound under each interface key, or under
      the implementation class when there is none. */
  method CommitRegistration(container: ObjectContainer, registration: Registration, ordinal: nat)
    requires container.Valid()
    modifies container`registrations
    ensures container.Valid() && container.ParentTables() == old(container.ParentTables())
    ensures container.registrations == AddAll(old(container.registrations),
      BindingsOf(registration, CreateLifetimeHandler(registration.kind, container.id, ordinal)))
  {
    var lifetimeHandler := CreateLifetimeHandler(registration.kind, container.id, ordinal);
    ghost var before := container.registrations;
    ghost var own := if registration.interfaceTypes == [] then [Binding(registration.implClass, Resolver(registration.effectiveClass, lifetimeHandler))] else [];

    // A registration without interface keys is bound under its own class.
    if |registration.interfaceTypes| == 0 {
      container.AddRegistration(registration.implClass, registration.effectiveClass, lifetimeHandler);
    }
    assert container.registrations == AddAll(before, own);

    // Otherwise one binding per interface key, all sharing the handler.
    var interfaces := registration.interfaceTypes;
    ghost var base := container.registrations;
    ghost var parents := container.ParentTables();
    for j := 0 to |interfaces|
      invariant container.Valid() && container.ParentTables() == parents
      invariant container.registrations == AddAll(base, InterfaceBindings(interfaces[..j], registration.implClass, lifetimeHandler))
    {
      AddAllInterfaceStep(base, interfaces, j, registration.implClass, lifetimeHandler);
      container.AddRegistration(interfaces[j], registration.implClass, lifetimeHandler);
    }
    assert interfaces[..|interfaces|] == interfaces;
    AddAllConcat(before, own, InterfaceBindings(interfaces, registration.implClass, lifetimeHandler));
  }

  /** One more round of the user-registration loop commits the bindings of
      one more registration, with the handler of its ordinal. */
  lemma AddAllUserStep(t: Table, regs: seq<Registration>, i: nat, owner: ObjectId)
    requires i < |regs|
    ensures AddAll(t, UserBindings(regs[..i + 1], owner))
      == AddAll(AddAll(t, UserBindings(regs[..i], owner)), BindingsOf(regs[i], CreateLifetimeHandler(regs[i].kind, owner, i)))
  {
    assert regs[..i + 1][..i] == regs[..i];
    AddAllConcat(t, UserBindings(regs[..i], owner), BindingsOf(regs[i], CreateLifetimeHandler(regs[i].kind, owner, i)));
  }

  /** The user-registration loop: registration `i` is committed with a
      handler of ordinal `i`. */
  method CommitRegistrations(container: ObjectContainer, regs: seq<Registration>)
    requires container.Valid()
    modifies container`registrations
    ensures container.Valid() && container.ParentTables() == old(container.ParentTables())
    ensures container.registrations == AddAll(old(container.registrations), UserBindings(regs, container.id))
  {
    ghost var start := container.registrations;
    ghost var parents := container.ParentTables();
    for i := 0 to |regs|
      invariant container.Valid() && container.ParentTables() == parents
      invariant container.registrations == AddAll(start, UserBindings(regs[..i], container.id))
    {
      AddAllUserStep(start, regs, i, container.id);
      CommitRegistration(container, regs[i], i);
    }
    assert regs[..|regs|] == regs;
  }

  /** The container registers itself as IResolver and IInjector and, unless
      a custom IInjectorProvider is found in it or its parents, as
      IInjectorProvider; its handler comes after the `ordinal` user ones. */
  method AddContainerRegistrations(container: ObjectContainer, ordinal: nat, ghost start: Table, ghost regs: seq<Registration>)
    requires container.Valid() && WellFormed(start) && |regs| == ordinal
    requires container.registrations == AddAll(start, UserBindings(regs, container.id))
    modifies container`registrations
    ensures container.Valid() && container.ParentTables() == old(container.ParentTables())
    ensures container.registrations == CommittedTable(start, container.ParentTables(), regs, container.id)
  {
    ghost var parents := container.ParentTables();
    ghost var t := BeforeInjectorProvider(start, regs, container.id);
    var containerInstance := Handler(container.id, ordinal, InstanceHandler(container.id));

    // The container answers for IResolver ...
    container.AddRegistration(ResolverInterface, ContainerClass, containerInstance);

    // ... and for IInjector, unconditionally.
    container.AddRegistration(InjectorInterface, ContainerClass, containerInstance);
    assert container.registrations == t by {
      ghost var cr := ContainerResolver(container.id, ordinal);
      AddAllConcat(start, UserBindings(regs, container.id), BuiltIns(cr));
      AddAllPair(AddAll(start, UserBindings(regs, container.id)), BuiltIns(cr)[0], BuiltIns(cr)[1]);
    }

    // The IInjectorProvider binding is added only when the chain has none, or
    // the one it has is a container (a user-supplied provider is kept).
    var found := container.FindResolver(InjectorProviderInterface);
    assert container.ChainTables() == parents + [t];
    assert (found.None? || found.value.0.effectiveClass == ContainerClass) == AddsInjectorProvider(start, parents, regs, container.id);
    if found.None? || found.value.0.effectiveClass == ContainerClass {
      container.AddRegistration(InjectorProviderInterface, ContainerClass, containerInstance);
    }
  }

  /** Commits the user registrations and then the container's own ones. */
  method CommitToContainer(container: ObjectContainer, regs: seq<Registration>)
    requires container.Valid()
    modifies container`registrations
    ensures container.Valid() && container.ParentTables() == old(container.ParentTables())
    ensures container.registrations == CommittedTable(old(container.registrations), container.ParentTables(), regs, container.id)
  {
    ghost var start := container.registrations;
    CommitRegistrations(container, regs);
    AddContainerRegistrations(container, |regs|, start, regs);
  }

  /** The auto-create loop: resolves the key of each auto-create
      registration, in registration order, through the container whose
      inheritance chain has the tables `chain`; none of them fails. */
  method ResolveAutoCreated(chain: Resolution.Chain, regs: seq<Registration>, resolveImpl: Resolution.Resolved -> ObjectPtr,
                            ghost start: Table, ghost parents: Resolution.Chain, ghost owner: ObjectId)
    returns (autoCreated: seq<ObjectPtr>)
    requires WellFormed(start) && chain == parents + [CommittedTable(start, parents, regs, owner)]
    ensures |autoCreated| == |AutoCreateKeys(regs)|
    ensures forall i :: 0 <= i < |autoCreated| ==>
      Resolution.Resolve(chain, AutoCreateKeys(regs)[i], resolveImpl) == Success(autoCreated[i])
  {
    autoCreated := [];
    ghost var keys := [];
    for i := 0 to |regs|
      invariant keys == AutoCreateKeys(regs[..i]) && |autoCreated| == |keys|
      invariant forall m :: 0 <= m < |keys| ==> Resolution.Resolve(chain, keys[m], resolveImpl) == Success(autoCreated[m])
    {
      var registration := regs[i];
      AutoCreateKeysStep(regs, i);
      if registration.autoCreate {
        var classToResolve := AutoCreateKey(registration);
        AutoCreateRegistered(start, parents, regs, owner, i);
        var resolved := Resolution.Resolve(chain, classToResolve, resolveImpl);
        autoCreated := autoCreated + [resolved.value];
        keys := keys + [classToResolve];
      }
    }
    assert regs[..|regs|] == regs;
  }

  /** AddRegistrationsToContainer on the committed values: commits `regs`,
      finalizes the container and resolves the auto-create registrations. */
  method CommitAndFinalize(container: ObjectContainer, regs: seq<Registration>, resolveImpl: Resolution.Resolved -> ObjectPtr)
    returns (autoCreated: seq<ObjectPtr>)
    requires container.Valid()
    modifies container`registrations, container`inheritanceChain
    ensures container.Finalized() && container.ParentTables() == old(container.ParentTables())
    ensures container.registrations == CommittedTable(old(container.registrations), container.ParentTables(), regs, container.id)
    ensures |autoCreated| == |AutoCreateKeys(regs)|
    ensures forall i :: 0 <= i < |autoCreated| ==>
      Resolution.Resolve(container.ChainTables(), AutoCreateKeys(regs)[i], resolveImpl) == Success(autoCreated[i])
  {
    ghost var start := container.registrations;
    CommitToContainer(container, regs);
    container.FinalizeCreation();
    autoCreated := ResolveAutoCreated(container.ChainTables(), regs, resolveImpl, start, container.ParentTables(), container.id);
  }

  class ObjectContainerBuilder {
    var registrations: seq<RegistrationConfigurator>
    var outerForNewObjects: ObjectPtr

    constructor ()
      ensures registrations == [] && outerForNewObjects == None
    {
      registrations := [];
      outerForNewObjects := None;
    }

    method SetOuterForNewObjects(outer: ObjectPtr)
      modifies this`outerForNewObjects
      ensures outerForNewObjects == outer
    {
      outerForNewObjects := outer;
    }

    /** RegisterInstance(Instance): a ForInstance configurator. */
    method RegisterInstance(instanceClass: ClassKey, instance: ObjectId) returns (c: RegistrationConfigurator)
      modifies this`registrations
      ensures fresh(c) && registrations == old(registrations) + [c]
      ensures c.Snapshot() == Registration(instanceClass, instanceClass, InstanceRegistration(instance), [], false)
    {
      c := new RegistrationConfigurator.ForInstance(instanceClass, instance);
      registrations := registrations + [c];
    }

    /** RegisterType<T>(), with the lifetime SingleInstance selects. */
    method RegisterType(cls: ClassKey, lifetime: Lifetime) returns (c: RegistrationConfigurator)
      modifies this`registrations
      ensures fresh(c) && registrations == old(registrations) + [c]
      ensures c.Snapshot() == Registration(cls, cls, TypeRegistration(lifetime), [], false)
    {
      c := new RegistrationConfigurator.ForType(cls, lifetime);
      registrations := registrations + [c];
    }

    /** Commits the registrations into `container`, finalizes it and
        resolves the auto-create registrations through `resolveImpl`. */
    method AddRegistrationsToContainer(container: ObjectContainer, resolveImpl: Resolution.Resolved -> ObjectPtr)
      returns (autoCreated: seq<ObjectPtr>)
      requires container.Valid()
      modifies container`registrations, container`inheritanceChain
      ensures container.Finalized() && container.ParentTables() == old(container.ParentTables())
      ensures container.registrations
        == CommittedTable(old(container.registrations), container.ParentTables(), old(Snapshots(registrations)), container.id)
      ensures |autoCreated| == |AutoCreateKeys(old(Snapshots(registrations)))|
      ensures forall i :: 0 <= i < |autoCreated| ==>
        Resolution.Resolve(container.ChainTables(), AutoCreateKeys(old(Snapshots(registrations)))[i], resolveImpl) == Success(autoCreated[i])
    {
      var regs := Snapshots(registrations);
      autoCreated := CommitAndFinalize(container, regs, resolveImpl);
    }

    /** Build(Outer): a new root container owned by `outer`, or by the
        transient package when there is none. */
    method Build(outer: ObjectPtr, allocatedId: ObjectId, resolveImpl: Resolution.Resolved -> ObjectPtr)
      returns (container: ObjectContainer, autoCreated: seq<ObjectPtr>)
      ensures fresh(container) && container.Finalized()
      ensures container.id == allocatedId && container.parentContainer == null
      ensures container.outer == outer.GetOr(TransientPackage)
      ensures container.outerForNewObjects == if outerForNewObjects.Some? then outerForNewObjects else Some(container.outer)
      ensures container.registrations == CommittedTable([], [], old(Snapshots(registrations)), allocatedId)
      ensures container.ChainTables() == [container.registrations]
      ensures |autoCreated| == |AutoCreateKeys(old(Snapshots(registrations)))|
    {
      container := new ObjectContainer(allocatedId, outer.GetOr(TransientPackage));
      container.outerForNewObjects := if outerForNewObjects.Some? then outerForNewObjects else Some(container.outer);
      autoCreated := AddRegistrationsToContainer(container, resolveImpl);
    }

    /** The first half of BuildNested(Parent): a new container owned by
        `parent`, with its outer for new objects and its parent container
        set, and no registrations yet. */
    method NewNestedContainer(parent: ObjectContainer, allocatedId: ObjectId) returns (container: ObjectContainer)
      requires parent.Valid()
      ensures fresh(container) && container.Valid()
      ensures container.id == allocatedId && container.parentContainer == parent && container.registrations == []
      ensures container.outer == parent.id
      ensures container.outerForNewObjects == if outerForNewObjects.Some? then outerForNewObjects else parent.outerForNewObjects
      ensures container.ParentTables() == parent.ChainTables()
      ensures container.Lineage() == parent.Lineage() + [container]
    {
      ghost var ancestors := {parent} + parent.Ancestors;
      container := new ObjectContainer(allocatedId, parent.id);
      assert container !in ancestors;
      container.outerForNewObjects := if outerForNewObjects.Some? then outerForNewObjects else parent.outerForNewObjects;
      container.SetParentContainer(parent);
    }

    /** BuildNested(Parent): a new container owned by `parent` whose parent
        container is `parent`. */
    method BuildNested(parent: ObjectContainer, allocatedId: ObjectId, resolveImpl: Resolution.Resolved -> ObjectPtr)
      returns (container: ObjectContainer, autoCreated: seq<ObjectPtr>)
      requires parent.Valid()
      ensures fresh(container) && container.Finalized()
      ensures container.id == allocatedId && container.parentContainer == parent
      ensures container.outer == parent.id
      ensures container.outerForNewObjects == if outerForNewObjects.Some? then outerForNewObjects else parent.outerForNewObjects
      ensures container.registrations == CommittedTable([], parent.ChainTables(), old(Snapshots(registrations)), allocatedId)
      ensures container.ChainTables() == parent.ChainTables() + [container.registrations]
      ensures container.inheritanceChain == parent.Lineage() + [container]
      ensures |autoCreated| == |AutoCreateKeys(old(Snapshots(registrations)))|
    {
      container := NewNestedContainer(parent, allocatedId);
      autoCreated := AddRegistrationsToContainer(container, resolveImpl);
    }
  }
}
