/** A pending registration as the builder holds it: the implementation class,
    the interface keys declared through the `As`, `AsSelf` and `ByInterfaces`
    modifiers, and the auto-create flag. */
module Configurators {
  import opened Wrappers
  import opened ClassModel
  import opened Registrations

  /** Where ByInterfaces looks for interfaces. */
  datatype InterfaceSearchOptions = CurrentClass | CurrentAndSuper

  predicate NoDup(xs: seq<ClassKey>) {
    forall i, j :: 0 <= i < j < |xs| ==> xs[i] != xs[j]
  }

  /** TArray::AddUnique: appends `x` unless it is already present. */
  function AddUnique(xs: seq<ClassKey>, x: ClassKey): (r: seq<ClassKey>)
    ensures x in r
    ensures |xs| <= |r| && r[..|xs|] == xs
    ensures x in xs <==> |r| == |xs|
    ensures x !in xs <==> |r| == |xs| + 1
    ensures forall y :: y in r <==> y in xs || y == x
    ensures NoDup(xs) ==> NoDup(r)
  {
    if x in xs then xs else xs + [x]
  }

  /** AddUnique of every element of `ys`, in order. */
  function AppendUnique(xs: seq<ClassKey>, ys: seq<ClassKey>): (r: seq<ClassKey>)
    ensures |xs| <= |r| <= |xs| + |ys| && r[..|xs|] == xs
    ensures forall y :: y in r <==> y in xs || y in ys
    ensures NoDup(xs) ==> NoDup(r)
    decreases |ys|
  {
    if ys == [] then xs
    else
      var r := AddUnique(AppendUnique(xs, ys[..|ys| - 1]), ys[|ys| - 1]);
      assert forall y :: y in ys <==> y in ys[..|ys| - 1] || y == ys[|ys| - 1] by {
        assert ys == ys[..|ys| - 1] + [ys[|ys| - 1]];
      }
      r
  }

  /** Adding `ys` and then `zs` is adding `ys + zs`; in particular the new
      keys follow the order in which they are discovered. */
  lemma {:induction false} AppendUniqueConcat(xs: seq<ClassKey>, ys: seq<ClassKey>, zs: seq<ClassKey>)
    ensures AppendUnique(xs, ys + zs) == AppendUnique(AppendUnique(xs, ys), zs)
    decreases |zs|
  {
    if zs == [] {
      assert ys + zs == ys;
    } else {
      var n := |zs| - 1;
      assert (ys + zs)[..|ys + zs| - 1] == ys + zs[..n];
      assert (ys + zs)[|ys + zs| - 1] == zs[n];
      AppendUniqueConcat(xs, ys, zs[..n]);
    }
  }

  /** The interface lists the ByInterfaces loop visits, in visiting order:
      the class's own list and, when searching supers, the lists of every
      superclass up to the root. */
  function InterfacesAlong(h: Hierarchy, cls: ClassKey, options: InterfaceSearchOptions): seq<ClassKey>
    requires h.Valid()
    decreases h.rank(cls)
  {
    h.interfaces(cls)
      + (if options == CurrentAndSuper && h.super(cls).Some?
         then InterfacesAlong(h, h.super(cls).value, options) else [])
  }

  /** With CurrentAndSuper an interface is found exactly when the class or
      one of its superclasses declares it. */
  lemma {:induction false} InterfacesAlongSuper(h: Hierarchy, cls: ClassKey, i: ClassKey)
    requires h.Valid()
    ensures i in InterfacesAlong(h, cls, CurrentAndSuper) <==>
      exists c :: h.IsChildOf(cls, c) && i in h.interfaces(c)
    decreases h.rank(cls)
  {
    var along := InterfacesAlong(h, cls, CurrentAndSuper);
    if h.super(cls).Some? {
      var s := h.super(cls).value;
      InterfacesAlongSuper(h, s, i);
      assert along == h.interfaces(cls) + InterfacesAlong(h, s, CurrentAndSuper);
      if exists c :: h.IsChildOf(cls, c) && i in h.interfaces(c) {
        var c :| h.IsChildOf(cls, c) && i in h.interfaces(c);
        if c != cls {
          assert h.IsChildOf(s, c);
        }
      }
      if i in InterfacesAlong(h, s, CurrentAndSuper) {
        var c :| h.IsChildOf(s, c) && i in h.interfaces(c);
        assert h.IsChildOf(cls, c);
      }
    } else {
      if exists c :: h.IsChildOf(cls, c) && i in h.interfaces(c) {
        var c :| h.IsChildOf(cls, c) && i in h.interfaces(c);
        assert c == cls;
      }
      assert h.IsChildOf(cls, cls);
    }
  }

  /** The result of ByInterfaces on a configurator holding `xs`: the old keys
      keep their positions, nothing is duplicated, and the keys added are
      the interfaces of the class (CurrentClass) or of the class and all its
      superclasses (CurrentAndSuper). */
  lemma ByInterfacesResult(h: Hierarchy, xs: seq<ClassKey>, cls: ClassKey, options: InterfaceSearchOptions)
    requires h.Valid()
    ensures var r := AppendUnique(xs, InterfacesAlong(h, cls, options));
      && r[..|xs|] == xs
      && (NoDup(xs) ==> NoDup(r))
      && (options == CurrentClass ==> forall y :: y in r <==> y in xs || y in h.interfaces(cls))
      && (options == CurrentAndSuper ==>
            forall y :: y in r <==> y in xs || exists c :: h.IsChildOf(cls, c) && y in h.interfaces(c))
  {
    if options == CurrentAndSuper {
      forall y {
        InterfacesAlongSuper(h, cls, y);
      }
    } else {
      assert InterfacesAlong(h, cls, options) == h.interfaces(cls);
    }
  }

  /** Which configurator made the registration: ForInstance holds an
      existing object, ForType constructs objects with a lifetime. */
  datatype RegistrationKind =
    | InstanceRegistration(instance: ObjectId)
    | TypeRegistration(lifetime: Lifetime)

  /** CreateLifetimeHandler: a new handler, identified by the container it is
      made for and its ordinal there. The ForInstance override wraps the
      stored instance; it never makes a constructing handler. */
  function CreateLifetimeHandler(kind: RegistrationKind, owner: ObjectId, ordinal: nat): (h: Handler)
    ensures h.owner == owner && h.ordinal == ordinal
    ensures kind.InstanceRegistration? <==> h.kind.InstanceHandler?
    ensures kind.InstanceRegistration? ==> h.kind.instance == kind.instance
    ensures kind.TypeRegistration? ==> h.kind.lifetime == kind.lifetime
  {
    match kind
    case InstanceRegistration(instance) => Handler(owner, ordinal, InstanceHandler(instance))
    case TypeRegistration(lifetime) => Handler(owner, ordinal, ConstructingHandler(lifetime))
  }

  /** The state of one configurator when the builder commits it. */
  datatype Registration = Registration(
    implClass: ClassKey,
    effectiveClass: ClassKey,
    kind: RegistrationKind,
    interfaceTypes: seq<ClassKey>,
    autoCreate: bool)

  class RegistrationConfigurator {
    const implClass: ClassKey
    const effectiveClass: ClassKey
    const kind: RegistrationKind
    var interfaceTypes: seq<ClassKey>
    var autoCreate: bool

    /** Registers an existing object; the implementation class is the
        object's own static class. */
    constructor ForInstance(instanceClass: ClassKey, instance: ObjectId)
      ensures implClass == instanceClass && effectiveClass == instanceClass
      ensures kind == InstanceRegistration(instance)
      ensures interfaceTypes == [] && !autoCreate
    {
      implClass := instanceClass;
      effectiveClass := instanceClass;
      kind := InstanceRegistration(instance);
      interfaceTypes := [];
      autoCreate := false;
    }

    /** Registers a class the container constructs with the given lifetime. */
    constructor ForType(cls: ClassKey, lifetime: Lifetime)
      ensures implClass == cls && effectiveClass == cls
      ensures kind == TypeRegistration(lifetime)
      ensures interfaceTypes == [] && !autoCreate
    {
      implClass := cls;
      effectiveClass := cls;
      kind := TypeRegistration(lifetime);
      interfaceTypes := [];
      autoCreate := false;
    }

    function Snapshot(): (r: Registration)
      reads this
      ensures r.implClass == implClass && r.effectiveClass == effectiveClass && r.kind == kind
      ensures r.interfaceTypes == interfaceTypes && r.autoCreate == autoCreate
    {
      Registration(implClass, effectiveClass, kind, interfaceTypes, autoCreate)
    }

    /** As<Interface>(): registers under one more interface key. */
    method As(i: ClassKey) returns (self: RegistrationConfigurator)
      modifies this
      ensures self == this
      ensures interfaceTypes == AddUnique(old(interfaceTypes), i)
      ensures autoCreate == old(autoCreate)
    {
      interfaceTypes := AddUnique(interfaceTypes, i);
      self := this;
    }

    /** AsSelf(): registers under the implementation class as well. */
    method AsSelf() returns (self: RegistrationConfigurator)
      modifies this
      ensures self == this
      ensures interfaceTypes == AddUnique(old(interfaceTypes), implClass)
      ensures autoCreate == old(autoCreate)
    {
      interfaceTypes := AddUnique(interfaceTypes, implClass);
      self := this;
    }

    /** AutoCreate(): resolve this registration once the container is built.
        Only type registrations offer it; an instance configurator has no
        such modifier. */
    method AutoCreate() returns (self: RegistrationConfigurator)
      requires kind.TypeRegistration?
      modifies this
      ensures self == this
      ensures autoCreate && interfaceTypes == old(interfaceTypes)
    {
      autoCreate := true;
      self := this;
    }

    /** The loop over one class's interface list: AddUnique of each. */
    method AddInterfaces(ifs: seq<ClassKey>)
      modifies this`interfaceTypes
      ensures interfaceTypes == AppendUnique(old(interfaceTypes), ifs)
    {
      ghost var before := interfaceTypes;
      for j := 0 to |ifs|
        invariant interfaceTypes == AppendUnique(before, ifs[..j])
      {
        assert ifs[..j + 1][..j] == ifs[..j];
        interfaceTypes := AddUnique(interfaceTypes, ifs[j]);
      }
      assert ifs[..|ifs|] == ifs;
    }

    /** Registers under every interface the implementation class implements;
        with CurrentAndSuper also those of its superclasses. The loop runs
        its body at least once and then follows the superclass chain while
        supers are searched. */
    method ByInterfaces(h: Hierarchy, options: InterfaceSearchOptions) returns (self: RegistrationConfigurator)
      requires h.Valid()
      modifies this
      ensures self == this
      ensures interfaceTypes == AppendUnique(old(interfaceTypes), InterfacesAlong(h, implClass, options))
      ensures autoCreate == old(autoCreate)
    {
      ghost var goal := AppendUnique(interfaceTypes, InterfacesAlong(h, implClass, options));
      var cls := implClass;
      while true
        invariant AppendUnique(interfaceTypes, InterfacesAlong(h, cls, options)) == goal
        invariant autoCreate == old(autoCreate)
        decreases h.rank(cls)
      {
        var ifs := h.interfaces(cls);
        ghost var before := interfaceTypes;
        AddInterfaces(ifs);
        var next := h.super(cls);
        var rest := if options == CurrentAndSuper && next.Some? then InterfacesAlong(h, next.value, options) else [];
        AppendUniqueConcat(before, ifs, rest);
        if next.None? || options == CurrentClass {
          assert rest == [];
          break;
        }
        cls := next.value;
      }
      self := this;
    }
  }
}
