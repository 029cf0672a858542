/** Class identity as the DI engine sees it. The engine's reflection system
    is modelled as a `Hierarchy` value: a superclass function that is acyclic
    (every superclass has a smaller rank) and the interfaces each class
    declares itself. */
module ClassModel {
  import opened Wrappers

  /** Identity of a managed object (a UObject pointer); `None` of an
      `ObjectPtr` is the null pointer. */
  type ObjectId = nat
  type ObjectPtr = Option<ObjectId>

  /** The package that owns objects created without an explicit outer. */
  const TransientPackage: ObjectId := 0

  /** A UClass key. The classes the container registers itself under are
      distinguished; every other class or interface is a `UserClass`. */
  datatype ClassKey =
    | ObjectClass                 // UObject
    | InterfaceBase               // UInterface
    | ResolverInterface           // UResolver
    | InjectorInterface           // UInjector
    | InjectorProviderInterface   // UInjectorProvider
    | ContainerClass              // UObjectContainer
    | UserClass(name: string)

  datatype Hierarchy = Hierarchy(
    super: ClassKey -> Option<ClassKey>,
    interfaces: ClassKey -> seq<ClassKey>,
    rank: ClassKey -> nat)
  {
    /** The superclass relation has no cycles. */
    ghost predicate Valid() {
      forall k :: super(k).Some? ==> rank(super(k).value) < rank(k)
    }

    /** UClass::IsChildOf: `k` is `base` or a (transitive) subclass of it. */
    predicate IsChildOf(k: ClassKey, base: ClassKey)
      requires Valid()
      decreases rank(k)
    {
      k == base || (super(k).Some? && IsChildOf(super(k).value, base))
    }
  }

  /** Every class reaches `ObjectClass` through its superclass chain. */
  lemma {:induction false} ChildOfObject(h: Hierarchy, k: ClassKey)
    requires h.Valid()
    requires forall c :: h.super(c).None? ==> c == ObjectClass
    ensures h.IsChildOf(k, ObjectClass)
    decreases h.rank(k)
  {
    if k != ObjectClass {
      ChildOfObject(h, h.super(k).value);
    }
  }
}
