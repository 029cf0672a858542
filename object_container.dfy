/** UObjectContainer: its registration map, its parent container and the
    inheritance chain it caches when it is finalized. */
module Containers {
  import opened Wrappers
  import opened ClassModel
  import opened Registrations
  import Resolution
  import opened ContainerIterator

  /** Which objects an iterator returns: only this container's, or also
      those of all its parents, parents first. */
  datatype IteratorFlags = NoFlags | IncludeParent

  /** The registration tables of a list of containers, in the same order. */
  function TablesOf(cs: seq<ObjectContainer>): (r: seq<Table>)
    reads set c | c in cs
    ensures |r| == |cs| && forall i :: 0 <= i < |cs| ==> r[i] == cs[i].registrations
  {
    if cs == [] then [] else TablesOf(cs[..|cs| - 1]) + [cs[|cs| - 1].registrations]
  }

  class ObjectContainer {
    const id: ObjectId
    /** The object NewObject gave the container as its outer. */
    const outer: ObjectId
    var outerForNewObjects: ObjectPtr
    var parentContainer: ObjectContainer?
    var registrations: Table
    /** Cached by FinalizeCreation: the lineage, root container first. */
    var inheritanceChain: seq<ObjectContainer>
    /** Every container reachable through `parentContainer`. */
    ghost var Ancestors: set<ObjectContainer>

    /** The parent links form a finite chain that does not come back to
        this container, and every table in it is well formed. */
    ghost predicate Valid()
      reads this`parentContainer, this`Ancestors, this`registrations
      reads Ancestors`parentContainer, Ancestors`Ancestors, Ancestors`registrations
    {
      Linked() && WellFormed(registrations)
    }

    /** Valid() for everything but this container's own table. */
    ghost predicate Linked()
      reads this`parentContainer, this`Ancestors
      reads Ancestors`parentContainer, Ancestors`Ancestors, Ancestors`registrations
      decreases Ancestors
    {
      && this !in Ancestors
      && (parentContainer == null ==> Ancestors == {})
      && (parentContainer != null ==>
            && parentContainer in Ancestors
            && Ancestors == {parentContainer} + parentContainer.Ancestors
            && parentContainer !in parentContainer.Ancestors
            && parentContainer.Linked()
            && WellFormed(parentContainer.registrations))
    }

    /** This container's lineage: the root ancestor first, each parent before
        its child, ending with this container. */
    function Lineage(): (r: seq<ObjectContainer>)
      reads this`parentContainer, this`Ancestors
      reads Ancestors`parentContainer, Ancestors`Ancestors, Ancestors`registrations
      requires Linked()
      ensures |r| > 0 && r[|r| - 1] == this
      ensures forall c :: c in r ==> c == this || c in Ancestors
      decreases Ancestors
    {
      if parentContainer == null then [this] else parentContainer.Lineage() + [this]
    }

    /** The registration tables of Lineage(), root first. */
    function ChainTables(): (r: Resolution.Chain)
      reads this`parentContainer, this`Ancestors, this`registrations
      reads Ancestors`parentContainer, Ancestors`Ancestors, Ancestors`registrations
      requires Valid()
      ensures r == ParentTables() + [registrations]
      ensures forall i :: 0 <= i < |r| ==> WellFormed(r[i])
      decreases Ancestors, 1
    {
      ParentTables() + [registrations]
    }

    /** The tables of the parents, root first; empty without a parent. */
    function ParentTables(): (r: Resolution.Chain)
      reads this`parentContainer, this`Ancestors
      reads Ancestors`parentContainer, Ancestors`Ancestors, Ancestors`registrations
      requires Linked()
      ensures forall i :: 0 <= i < |r| ==> WellFormed(r[i])
      decreases Ancestors, 0
    {
      if parentContainer == null then [] else parentContainer.ChainTables()
    }

    /** FinalizeCreation has cached the inheritance chain. */
    ghost predicate Finalized()
      reads this`parentContainer, this`Ancestors, this`registrations, this`inheritanceChain
      reads Ancestors`parentContainer, Ancestors`Ancestors, Ancestors`registrations
    {
      Valid() && inheritanceChain == Lineage()
    }

    /** NewObject<UObjectContainer>: a container with no registrations and
        no parent. */
    constructor (id: ObjectId, outer: ObjectId)
      ensures this.id == id && this.outer == outer
      ensures outerForNewObjects == None && parentContainer == null
      ensures registrations == [] && inheritanceChain == []
      ensures Ancestors == {} && Valid()
    {
      this.id := id;
      this.outer := outer;
      outerForNewObjects := None;
      parentContainer := null;
      registrations := [];
      inheritanceChain := [];
      Ancestors := {};
    }

    /** Makes `parent` the parent container of a container that has none. */
    method SetParentContainer(parent: ObjectContainer)
      requires Valid() && parentContainer == null && parent.Valid() && this != parent && this !in parent.Ancestors
      modifies this`parentContainer, this`Ancestors
      ensures Valid() && parentContainer == parent && Ancestors == {parent} + parent.Ancestors
      ensures ParentTables() == parent.ChainTables()
      ensures Lineage() == parent.Lineage() + [this]
    {
      parentContainer := parent;
      Ancestors := {parent} + parent.Ancestors;
    }

    /** `Registrations.FindOrAdd(Interface).Add({EffectiveClass, Lifetime})`. */
    method AddRegistration(key: ClassKey, effectiveClass: ClassKey, handler: Handler)
      requires Valid()
      modifies this`registrations
      ensures Valid() && ParentTables() == old(ParentTables())
      ensures registrations == Add(old(registrations), Binding(key, Resolver(effectiveClass, handler)))
    {
      AddWellFormed(registrations, Binding(key, Resolver(effectiveClass, handler)));
      registrations := Add(registrations, Binding(key, Resolver(effectiveClass, handler)));
    }

    /** Recurses up to the root ancestor and appends the containers on the
        way back, so `outChain` gains the chain root first. */
    method AppendInheritanceChain(outChain: seq<ObjectContainer>) returns (r: seq<ObjectContainer>)
      requires Valid()
      ensures r == outChain + Lineage()
      decreases Ancestors
    {
      r := outChain;
      if parentContainer != null {
        r := parentContainer.AppendInheritanceChain(r);
      }
      r := r + [this];
    }

    /** Caches the inheritance chain. */
    method FinalizeCreation()
      requires Valid()
      modifies this`inheritanceChain
      ensures Finalized()
      ensures ParentTables() == old(ParentTables())
    {
      ghost var parents := ParentTables();
      var chain := AppendInheritanceChain([]);
      inheritanceChain := chain;
      assert ParentTables() == parents;
    }

    /** The resolver single resolution uses and the container that owns it:
        this container's first resolver for `k`, or else its parent's. */
    function FindResolver(k: ClassKey): (r: Option<(Resolver, ObjectContainer)>)
      reads this`parentContainer, this`Ancestors, this`registrations
      reads Ancestors`parentContainer, Ancestors`Ancestors, Ancestors`registrations
      requires Valid()
      ensures r.Some? <==> Resolution.IsRegistered(ChainTables(), k)
      ensures r.Some? ==> (Resolution.FindResolver(ChainTables(), k).Some?
        && r.value.0 == Resolution.FindResolver(ChainTables(), k).value.resolver)
      ensures r.Some? ==> r.value.1 == this || r.value.1 in Ancestors
      decreases Ancestors
    {
      var own := Lookup(registrations, k);
      Resolution.FindResolverSelfOrParent(ParentTables(), registrations, k);
      if own != [] then Some((own[0], this))
      else if parentContainer == null then None
      else parentContainer.FindResolver(k)
    }

    /** The container FindResolver answers with is the one of the lineage
        whose table the chain-level lookup picks: the nearest container
        that registers `k`. */
    lemma {:induction false} FindResolverOwner(k: ClassKey)
      requires Valid() && FindResolver(k).Some?
      ensures |Lineage()| == |ChainTables()|
      ensures FindResolver(k).value.1 == Lineage()[Resolution.FindResolver(ChainTables(), k).value.container]
      decreases Ancestors
    {
      LineageTables();
      Resolution.FindResolverSelfOrParent(ParentTables(), registrations, k);
      if Lookup(registrations, k) == [] {
        parentContainer.FindResolverOwner(k);
      }
    }

    /** The tables an iterator with these flags runs over: the whole
        inheritance chain, or only its last element. */
    function IteratedTables(flags: IteratorFlags): seq<Table>
      reads this, set c | c in inheritanceChain
    {
      if flags == IncludeParent || |inheritanceChain| == 0 then TablesOf(inheritanceChain)
      else TablesOf(inheritanceChain[|inheritanceChain| - 1..])
    }

    /** Once finalized, IncludeParent runs over every table of the chain,
        parents first, and no flags runs over this container's own table. */
    lemma IteratedTablesFinalized(flags: IteratorFlags)
      requires Finalized()
      ensures flags == IncludeParent ==> IteratedTables(flags) == ChainTables()
      ensures flags == NoFlags ==> IteratedTables(flags) == [registrations]
    {
      LineageTables();
    }

    lemma {:induction false} LineageTables()
      requires Valid()
      ensures TablesOf(Lineage()) == ChainTables()
      decreases Ancestors
    {
      if parentContainer != null {
        parentContainer.LineageTables();
      }
    }

    /** CreateIterator<T>(Flags). */
    method CreateIterator(flags: IteratorFlags, desired: ClassKey, h: Hierarchy) returns (it: ObjectContainerIterator)
      requires Finalized() && h.Valid()
      requires FitsInt16(IteratedTables(flags))
      ensures fresh(it) && it.Valid()
      ensures it.containers == IteratedTables(flags)
      ensures it.Remaining() == AllPositions(h, IteratedTables(flags), desired)
    {
      it := new ObjectContainerIterator(IteratedTables(flags), desired, h);
    }
  }
}
