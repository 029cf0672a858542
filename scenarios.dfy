/** The container counts the iterator tests observe, stated for every
    registration list: a UObject iterator visits every entry of the tables
    it runs over, and every built container holds its user bindings plus
    the three built-in ones. */
module Scenarios {
  import opened Wrappers
  import opened ClassModel
  import opened Registrations
  import Resolution
  import opened ContainerIterator
  import opened Configurators
  import opened Builder

  /** Every class and interface of the engine derives from UObject. */
  ghost predicate Rooted(h: Hierarchy) {
    h.Valid() && forall c :: h.super(c).None? ==> c == ObjectClass
  }

  /** Every key of `t` is a child of `desired`. */
  ghost predicate KeysChildOf(h: Hierarchy, t: Table, desired: ClassKey)
    requires h.Valid()
  {
    forall i :: 0 <= i < |t| && t[i].Some? ==> h.IsChildOf(t[i].value.key, desired)
  }

  lemma RootedKeys(h: Hierarchy, t: Table)
    requires Rooted(h)
    ensures KeysChildOf(h, t, ObjectClass)
  {
    forall i | 0 <= i < |t| && t[i].Some? ensures h.IsChildOf(t[i].value.key, ObjectClass) {
      ChildOfObject(h, t[i].value.key);
    }
  }

  /** When every key matches, the slots from `m` on hold what the table
      holds minus its first `m` slots. */
  lemma {:induction false} MatchingFromAll(h: Hierarchy, t: Table, desired: ClassKey, m: nat)
    requires h.Valid() && m <= |t| && KeysChildOf(h, t, desired)
    ensures MatchingFrom(h, t, desired, m) + Entries(t[..m]) == Entries(t)
    decreases |t| - m
  {
    if m == |t| {
      assert t[..m] == t;
    } else {
      MatchingFromAll(h, t, desired, m + 1);
      assert t[..m + 1][..m] == t[..m];
    }
  }

  /** A UObject iterator over one container visits every entry. */
  lemma ObjectIteratorVisitsAll(h: Hierarchy, t: Table)
    requires Rooted(h)
    ensures |AllPositions(h, [t], ObjectClass)| == Entries(t)
  {
    RootedKeys(h, t);
    MatchingFromAll(h, t, ObjectClass, 0);
    AllPositionsCount(h, [t], ObjectClass);
  }

  /** A UObject iterator over a parent and a child container visits every
      entry of both. */
  lemma ObjectIteratorVisitsBoth(h: Hierarchy, parent: Table, child: Table)
    requires Rooted(h)
    ensures |AllPositions(h, [parent, child], ObjectClass)| == Entries(parent) + Entries(child)
  {
    RootedKeys(h, parent);
    RootedKeys(h, child);
    MatchingFromAll(h, parent, ObjectClass, 0);
    MatchingFromAll(h, child, ObjectClass, 0);
    AllPositionsCount(h, [parent, child], ObjectClass);
    assert MatchingEntries(h, [parent, child], ObjectClass, 2) == 0;
    assert MatchingEntries(h, [parent, child], ObjectClass, 1) == MatchingFrom(h, child, ObjectClass, 0);
  }

  /** The parents do not hold a custom IInjectorProvider. */
  predicate NoCustomProvider(parents: Resolution.Chain) {
    var found := Resolution.FindResolver(parents, InjectorProviderInterface);
    found.None? || found.value.resolver.effectiveClass == ContainerClass
  }

  /** A new container whose registrations do not bind IInjectorProvider,
      under parents without a custom one, registers itself under all three
      built-in keys: it holds its user bindings plus three entries. */
  lemma BuiltEntries(parents: Resolution.Chain, regs: seq<Registration>, owner: ObjectId)
    requires NoCustomProvider(parents) && !AnyBinds(regs, InjectorProviderInterface)
    ensures AddsInjectorProvider([], parents, regs, owner)
    ensures Entries(CommittedTable([], parents, regs, owner)) == BindingCount(regs) + 3
  {
    var k := InjectorProviderInterface;
    var t := BeforeInjectorProvider([], regs, owner);
    BeforeInjectorProviderLookup([], regs, owner, k);
    UserBindingsKeys(regs, owner, k);
    assert Lookup(t, k) == [];
    Resolution.FindResolverSelfOrParent(parents, t, k);
    CommittedLookup([], parents, regs, owner, k);
  }

  /** A container built that way leaves no custom IInjectorProvider to its
      children. */
  lemma BuiltLeavesNoCustomProvider(parents: Resolution.Chain, regs: seq<Registration>, owner: ObjectId)
    requires NoCustomProvider(parents) && !AnyBinds(regs, InjectorProviderInterface)
    ensures NoCustomProvider(parents + [CommittedTable([], parents, regs, owner)])
  {
    BuiltEntries(parents, regs, owner);
    InjectorProviderAfterCommit([], parents, regs, owner);
  }

  /** "Should Iterate over default registrations" and "over all
      registrations in single container": a root container built from
      registrations that bind no IInjectorProvider yields its bindings plus
      the three built-in entries to a UObject iterator. */
  lemma RootObjectCount(h: Hierarchy, regs: seq<Registration>, owner: ObjectId)
    requires Rooted(h) && !AnyBinds(regs, InjectorProviderInterface)
    ensures |AllPositions(h, [CommittedTable([], [], regs, owner)], ObjectClass)| == BindingCount(regs) + 3
  {
    BuiltEntries([], regs, owner);
    ObjectIteratorVisitsAll(h, CommittedTable([], [], regs, owner));
  }

  /** "Should Iterate over all registrations in parent and child
      containers": with IncludeParent the count is the parent's bindings
      plus three, and the child's bindings plus three. */
  lemma NestedObjectCount(h: Hierarchy, parentRegs: seq<Registration>, regs: seq<Registration>, p: ObjectId, c: ObjectId)
    requires Rooted(h)
    requires !AnyBinds(parentRegs, InjectorProviderInterface) && !AnyBinds(regs, InjectorProviderInterface)
    ensures var pt := CommittedTable([], [], parentRegs, p);
      |AllPositions(h, [pt, CommittedTable([], [pt], regs, c)], ObjectClass)|
        == (BindingCount(parentRegs) + 3) + (BindingCount(regs) + 3)
  {
    var pt := CommittedTable([], [], parentRegs, p);
    BuiltEntries([], parentRegs, p);
    BuiltLeavesNoCustomProvider([], parentRegs, p);
    assert [] + [pt] == [pt];
    BuiltEntries([pt], regs, c);
    ObjectIteratorVisitsBoth(h, pt, CommittedTable([], [pt], regs, c));
  }

  /** RegisterType<UMockReader>() with no interface modifier. */
  function PlainType(cls: ClassKey): Registration {
    Registration(cls, cls, TypeRegistration(Transient), [], false)
  }

  /** The test counts themselves: 3 for an empty builder, 5 for two plain
      registrations, (3 + 2) * 2 for two such containers nested. */
  lemma IteratorTestCounts(h: Hierarchy, reader: ClassKey, p: ObjectId, c: ObjectId)
    requires Rooted(h) && reader != InjectorProviderInterface
    ensures |AllPositions(h, [CommittedTable([], [], [], c)], ObjectClass)| == 3
    ensures |AllPositions(h, [CommittedTable([], [], [PlainType(reader), PlainType(reader)], c)], ObjectClass)| == 5
    ensures var regs := [PlainType(reader), PlainType(reader)];
      var pt := CommittedTable([], [], regs, p);
      |AllPositions(h, [pt, CommittedTable([], [pt], regs, c)], ObjectClass)| == (3 + 2) * 2
  {
    var regs := [PlainType(reader), PlainType(reader)];
    assert !AnyBinds(regs, InjectorProviderInterface) by {
      assert forall j :: 0 <= j < |regs| ==> regs[j] == PlainType(reader);
    }
    assert regs[..1] == [PlainType(reader)] && regs[..1][..0] == [];
    assert BindingCount(regs[..1]) == 1;
    assert BindingCount(regs) == 2;
    RootObjectCount(h, [], c);
    RootObjectCount(h, regs, c);
    NestedObjectCount(h, regs, regs, p, c);
  }

  /** A root container registers a key exactly when some registration binds
      it or it is IResolver, IInjector or IInjectorProvider. */
  lemma RootIsRegistered(regs: seq<Registration>, owner: ObjectId, k: ClassKey)
    ensures Resolution.IsRegistered([CommittedTable([], [], regs, owner)], k) <==>
      AnyBinds(regs, k) || k == ResolverInterface || k == InjectorInterface || k == InjectorProviderInterface
  {
    var chain := [CommittedTable([], [], regs, owner)];
    CommittedBinds([], [], regs, owner, k);
    if k == InjectorProviderInterface && !AnyBinds(regs, k) {
      BuiltEntries([], regs, owner);
    }
    assert Resolution.IsRegistered(chain, k) <==> Resolution.RegistersAt(chain, 0, k);
  }

  /** A root container built from one registration registers a key exactly
      when that registration binds it or it is a built-in key. */
  lemma SingleIsRegistered(r: Registration, owner: ObjectId, k: ClassKey)
    ensures Resolution.IsRegistered([CommittedTable([], [], [r], owner)], k) <==>
      Binds(r, k) || k == ResolverInterface || k == InjectorInterface || k == InjectorProviderInterface
  {
    RootIsRegistered([r], owner, k);
    assert AnyBinds([r], k) <==> Binds(r, k) by {
      assert [r][0] == r;
    }
  }

  /** "Should Register Type As Interface": As<IReader>() registers IReader
      and not UMockReader. */
  lemma RegisterAsInterfaceTest(mock: ClassKey, reader: ClassKey, owner: ObjectId)
    requires mock.UserClass? && reader.UserClass? && mock != reader
    ensures var r := Registration(mock, mock, TypeRegistration(Transient), AddUnique([], reader), false);
      && Resolution.IsRegistered([CommittedTable([], [], [r], owner)], reader)
      && !Resolution.IsRegistered([CommittedTable([], [], [r], owner)], mock)
  {
    var r := Registration(mock, mock, TypeRegistration(Transient), AddUnique([], reader), false);
    SingleIsRegistered(r, owner, reader);
    SingleIsRegistered(r, owner, mock);
  }

  /** "Should Register Type As Interface And Self": As<IReader>().AsSelf()
      registers both keys. */
  lemma RegisterAsInterfaceAndSelfTest(mock: ClassKey, reader: ClassKey, owner: ObjectId)
    ensures var r := Registration(mock, mock, TypeRegistration(Transient), AddUnique(AddUnique([], reader), mock), false);
      && Resolution.IsRegistered([CommittedTable([], [], [r], owner)], reader)
      && Resolution.IsRegistered([CommittedTable([], [], [r], owner)], mock)
  {
    var r := Registration(mock, mock, TypeRegistration(Transient), AddUnique(AddUnique([], reader), mock), false);
    SingleIsRegistered(r, owner, reader);
    SingleIsRegistered(r, owner, mock);
  }

  /** "Should Register Type By Interfaces": ByInterfaces() on a class that
      implements IReader registers IReader and not the class itself. */
  lemma RegisterByInterfacesTest(h: Hierarchy, mock: ClassKey, reader: ClassKey, owner: ObjectId)
    requires h.Valid() && h.interfaces(mock) == [reader]
    requires mock.UserClass? && reader.UserClass? && mock != reader
    ensures var r := Registration(mock, mock, TypeRegistration(Transient), AppendUnique([], InterfacesAlong(h, mock, CurrentClass)), false);
      && Resolution.IsRegistered([CommittedTable([], [], [r], owner)], reader)
      && !Resolution.IsRegistered([CommittedTable([], [], [r], owner)], mock)
  {
    assert InterfacesAlong(h, mock, CurrentClass) == [reader];
    assert AppendUnique([], [reader]) == AddUnique(AppendUnique([], []), reader);
    RegisterAsInterfaceTest(mock, reader, owner);
  }

  /** Slots from `m` on whose keys are not children of `desired` hold no
      matching entries. */
  lemma {:induction false} MatchingFromNone(h: Hierarchy, t: Table, desired: ClassKey, m: nat)
    requires h.Valid()
    requires forall i :: m <= i < |t| ==> !SlotMatches(h, t[i], desired)
    ensures MatchingFrom(h, t, desired, m) == 0
    decreases |t| - m
  {
    if m < |t| {
      MatchingFromNone(h, t, desired, m + 1);
    }
  }

  /** "Should not Iterate over registrations in parent container": a child
      built without registrations holds only the built-in keys, so an
      iterator without IncludeParent, which runs over the child's table
      alone, yields nothing for a class none of them derives from. */
  lemma EmptyChildYieldsNothing(h: Hierarchy, parents: Resolution.Chain, owner: ObjectId, desired: ClassKey)
    requires h.Valid()
    requires !h.IsChildOf(ResolverInterface, desired) && !h.IsChildOf(InjectorInterface, desired)
    requires !h.IsChildOf(InjectorProviderInterface, desired)
    ensures AllPositions(h, [CommittedTable([], parents, [], owner)], desired) == []
  {
    var t := CommittedTable([], parents, [], owner);
    CommittedLookup([], parents, [], owner, desired);
    forall i | 0 <= i < |t| ensures !SlotMatches(h, t[i], desired) {
      if t[i].Some? {
        var key := t[i].value.key;
        CommittedBinds([], parents, [], owner, key);
        FindSlotUnique(t, key, i);
      }
    }
    MatchingFromNone(h, t, desired, 0);
    AllPositionsCount(h, [t], desired);
    assert MatchingEntries(h, [t], desired, 1) == 0;
  }
}
