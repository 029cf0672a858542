/** FObjectContainerIteratorBase: a lazy cursor over the registrations of a
    list of containers. The cursor is the triple (ContainerIndex, MapIndex,
    ArrayIndex) of `int16` values; ContainerIndex == INDEX_NONE means the
    iterator is exhausted. Each container is seen through its registration
    table, whose slots may be holes; only keys that are children of the
    desired class are visited. */
module ContainerIterator {
  import opened Wrappers
  import opened ClassModel
  import opened Registrations

  newtype int16 = x: int | -0x8000 <= x < 0x8000

  const IndexNone: int16 := -1
  const Int16Max: int := 0x7fff

  /** The cursor can reach every container, slot and array position without
      leaving the `int16` range. */
  predicate FitsInt16(tables: seq<Table>) {
    && |tables| <= Int16Max
    && (forall c :: 0 <= c < |tables| ==> |tables[c]| <= Int16Max)
    && (forall c, m :: 0 <= c < |tables| && 0 <= m < |tables[c]| ==> SlotSize(tables[c][m]) <= Int16Max)
  }

  /** A cursor position: container, map slot, array index. */
  datatype Pos = Pos(container: nat, slot: nat, index: nat)

  /** Lexicographic order on positions. */
  predicate Before(p: Pos, q: Pos) {
    || p.container < q.container
    || (p.container == q.container && p.slot < q.slot)
    || (p.container == q.container && p.slot == q.slot && p.index < q.index)
  }

  predicate SlotMatches(h: Hierarchy, s: Option<Slot>, desired: ClassKey)
    requires h.Valid()
  {
    s.Some? && h.IsChildOf(s.value.key, desired)
  }

  /** `p` is an element the iterator yields: a used slot whose key is a child
      of the desired class, and an index inside that slot's array. */
  predicate IsMatch(h: Hierarchy, tables: seq<Table>, desired: ClassKey, p: Pos)
    requires h.Valid()
  {
    && p.container < |tables|
    && p.slot < |tables[p.container]|
    && SlotMatches(h, tables[p.container][p.slot], desired)
    && p.index < |tables[p.container][p.slot].value.resolvers|
  }

  /** The positions (c, m, a), (c, m, a + 1), ..., (c, m, n - 1). */
  function Run(c: nat, m: nat, a: nat, n: nat): seq<Pos>
    decreases n - a
  {
    if a >= n then [] else [Pos(c, m, a)] + Run(c, m, a + 1, n)
  }

  /** The matching positions at or after (c, m, a), in traversal order. */
  function PositionsFrom(h: Hierarchy, tables: seq<Table>, desired: ClassKey, c: nat, m: nat, a: nat): seq<Pos>
    requires h.Valid()
    decreases |tables| - c, if c < |tables| then |tables[c]| - m else 0
  {
    if c >= |tables| then []
    else if m >= |tables[c]| then PositionsFrom(h, tables, desired, c + 1, 0, 0)
    else
      var s := tables[c][m];
      (if SlotMatches(h, s, desired) then Run(c, m, a, SlotSize(s)) else [])
      + PositionsFrom(h, tables, desired, c, m + 1, 0)
  }

  /** Everything an iterator over `tables` yields, in order. */
  function AllPositions(h: Hierarchy, tables: seq<Table>, desired: ClassKey): seq<Pos>
    requires h.Valid()
  {
    PositionsFrom(h, tables, desired, 0, 0, 0)
  }

  /** The resolver stored at a position, if the position holds one. */
  function ResolverAt(tables: seq<Table>, p: Pos): Option<Resolver> {
    if p.container < |tables| && p.slot < |tables[p.container]| && tables[p.container][p.slot].Some?
       && p.index < |tables[p.container][p.slot].value.resolvers|
    then Some(tables[p.container][p.slot].value.resolvers[p.index])
    else None
  }

  /** At a matching position the traversal yields that position first. */
  lemma PositionsFromAtMatch(h: Hierarchy, tables: seq<Table>, desired: ClassKey, c: nat, m: nat, a: nat)
    requires h.Valid() && IsMatch(h, tables, desired, Pos(c, m, a))
    ensures PositionsFrom(h, tables, desired, c, m, a) == [Pos(c, m, a)] + PositionsFrom(h, tables, desired, c, m, a + 1)
  {
  }

  /** The i-th position of a run is (c, m, a + i). */
  lemma {:induction false} RunIndex(c: nat, m: nat, a: nat, n: nat)
    ensures |Run(c, m, a, n)| == if a < n then n - a else 0
    ensures forall i :: 0 <= i < |Run(c, m, a, n)| ==> Run(c, m, a, n)[i] == Pos(c, m, a + i)
    decreases n - a
  {
    if a < n {
      RunIndex(c, m, a + 1, n);
      assert Run(c, m, a, n) == [Pos(c, m, a)] + Run(c, m, a + 1, n);
    }
  }

  /** A run holds exactly the positions of its range, in increasing order. */
  lemma RunExact(c: nat, m: nat, a: nat, n: nat)
    ensures |Run(c, m, a, n)| == if a < n then n - a else 0
    ensures forall p :: p in Run(c, m, a, n) <==> p.container == c && p.slot == m && a <= p.index < n
    ensures forall i, j :: 0 <= i < j < |Run(c, m, a, n)| ==> Run(c, m, a, n)[i].index < Run(c, m, a, n)[j].index
  {
    RunIndex(c, m, a, n);
    var r := Run(c, m, a, n);
    forall p: Pos | p.container == c && p.slot == m && a <= p.index < n
      ensures p in r
    {
      assert r[p.index - a] == p;
    }
  }

  /** The traversal from (c, m, a) is exactly the matching positions that are
      not before (c, m, a), in strictly increasing lexicographic order. */
  lemma {:induction false} PositionsFromExact(h: Hierarchy, tables: seq<Table>, desired: ClassKey, c: nat, m: nat, a: nat)
    requires h.Valid()
    ensures forall p :: p in PositionsFrom(h, tables, desired, c, m, a) <==>
      IsMatch(h, tables, desired, p) && !Before(p, Pos(c, m, a))
    ensures forall i, j :: 0 <= i < j < |PositionsFrom(h, tables, desired, c, m, a)| ==>
      Before(PositionsFrom(h, tables, desired, c, m, a)[i], PositionsFrom(h, tables, desired, c, m, a)[j])
    decreases |tables| - c, if c < |tables| then |tables[c]| - m else 0
  {
    if c >= |tables| {
    } else if m >= |tables[c]| {
      PositionsFromExact(h, tables, desired, c + 1, 0, 0);
    } else {
      PositionsFromExact(h, tables, desired, c, m + 1, 0);
      var s := tables[c][m];
      var rest := PositionsFrom(h, tables, desired, c, m + 1, 0);
      if SlotMatches(h, s, desired) {
        var run := Run(c, m, a, SlotSize(s));
        RunExact(c, m, a, SlotSize(s));
        var all := run + rest;
        assert PositionsFrom(h, tables, desired, c, m, a) == all;
        forall i, j | 0 <= i < j < |all| ensures Before(all[i], all[j]) {
          if j < |run| {
          } else if i < |run| {
            assert all[i] in run && all[j] in rest;
          }
        }
      }
    }
  }

  /** The number of entries under matching keys in the slots of `t` from `m` on. */
  function MatchingFrom(h: Hierarchy, t: Table, desired: ClassKey, m: nat): nat
    requires h.Valid()
    decreases |t| - m
  {
    if m >= |t| then 0
    else (if SlotMatches(h, t[m], desired) then SlotSize(t[m]) else 0) + MatchingFrom(h, t, desired, m + 1)
  }

  /** The number of entries under matching keys in the containers from `c` on. */
  function MatchingEntries(h: Hierarchy, tables: seq<Table>, desired: ClassKey, c: nat): nat
    requires h.Valid()
    decreases |tables| - c
  {
    if c >= |tables| then 0 else MatchingFrom(h, tables[c], desired, 0) + MatchingEntries(h, tables, desired, c + 1)
  }

  /** The iterator yields as many elements as the matching keys hold
      resolvers, summed over the given containers. */
  lemma {:induction false} PositionsFromCount(h: Hierarchy, tables: seq<Table>, desired: ClassKey, c: nat, m: nat)
    requires h.Valid()
    ensures |PositionsFrom(h, tables, desired, c, m, 0)| ==
      (if c < |tables| then MatchingFrom(h, tables[c], desired, m) + MatchingEntries(h, tables, desired, c + 1) else 0)
    decreases |tables| - c, if c < |tables| then |tables[c]| - m else 0
  {
    if c < |tables| {
      if m >= |tables[c]| {
        PositionsFromCount(h, tables, desired, c + 1, 0);
      } else {
        RunExact(c, m, 0, SlotSize(tables[c][m]));
        PositionsFromCount(h, tables, desired, c, m + 1);
      }
    }
  }

  lemma AllPositionsCount(h: Hierarchy, tables: seq<Table>, desired: ClassKey)
    requires h.Valid()
    ensures |AllPositions(h, tables, desired)| == MatchingEntries(h, tables, desired, 0)
  {
    PositionsFromCount(h, tables, desired, 0, 0);
  }

  /** Advance's skip steps: a hole, a slot whose key does not match, or an
      array already passed on yields nothing more from that slot. */
  lemma PositionsFromSkipSlot(h: Hierarchy, tables: seq<Table>, desired: ClassKey, c: nat, m: nat, a: nat)
    requires h.Valid() && c < |tables| && m < |tables[c]|
    requires !SlotMatches(h, tables[c][m], desired) || a >= SlotSize(tables[c][m])
    ensures PositionsFrom(h, tables, desired, c, m, a) == PositionsFrom(h, tables, desired, c, m + 1, 0)
  {
  }

  lemma PositionsFromNextContainer(h: Hierarchy, tables: seq<Table>, desired: ClassKey, c: nat, m: nat, a: nat)
    requires h.Valid() && c < |tables| && m >= |tables[c]|
    ensures PositionsFrom(h, tables, desired, c, m, a) == PositionsFrom(h, tables, desired, c + 1, 0, 0)
  {
  }

  /** The cursor (ci, mi, ai) is at an element the iterator yields. */
  predicate CursorAt(h: Hierarchy, tables: seq<Table>, desired: ClassKey, ci: int16, mi: int16, ai: int16)
    requires h.Valid()
  {
    0 <= ci && 0 <= mi && 0 <= ai && IsMatch(h, tables, desired, Pos(ci as nat, mi as nat, ai as nat))
  }

  /** What is left to yield from cursor (ci, mi, ai), its current element
      included: nothing once ContainerIndex is INDEX_NONE. */
  function RemainingFrom(h: Hierarchy, tables: seq<Table>, desired: ClassKey, ci: int16, mi: int16, ai: int16): seq<Pos>
    requires h.Valid() && (ci != IndexNone ==> CursorAt(h, tables, desired, ci, mi, ai))
  {
    if ci == IndexNone then [] else PositionsFrom(h, tables, desired, ci as nat, mi as nat, ai as nat)
  }

  class ObjectContainerIterator {
    const containers: seq<Table>
    const desiredClass: ClassKey
    const hierarchy: Hierarchy
    var containerIndex: int16
    var mapIndex: int16
    var arrayIndex: int16

    /** False once the cursor has run past the last matching entry. */
    predicate HasValue()
      reads this
    {
      containerIndex != IndexNone
    }

    ghost predicate Fits() {
      hierarchy.Valid() && FitsInt16(containers)
    }

    /** The cursor is exhausted or at an element the iterator yields. */
    ghost predicate Valid()
      reads this
    {
      && Fits()
      && (HasValue() ==> CursorAt(hierarchy, containers, desiredClass, containerIndex, mapIndex, arrayIndex))
    }

    /** The state the constructor sets before its first Advance. */
    ghost predicate BeforeFirst()
      reads this
    {
      Fits() && containerIndex == 0 && mapIndex == 0 && arrayIndex == -1
    }

    ghost function Current(): Pos
      reads this
      requires 0 <= containerIndex && 0 <= mapIndex && 0 <= arrayIndex
    {
      Pos(containerIndex as nat, mapIndex as nat, arrayIndex as nat)
    }

    /** The elements still to come after the current one. */
    ghost function Upcoming(): seq<Pos>
      reads this
      requires Valid() || BeforeFirst()
    {
      if !HasValue() then []
      else PositionsFrom(hierarchy, containers, desiredClass, containerIndex as nat, mapIndex as nat, (arrayIndex + 1) as nat)
    }

    /** The current element followed by the ones still to come. */
    ghost function Remaining(): seq<Pos>
      reads this
      requires Valid()
    {
      RemainingFrom(hierarchy, containers, desiredClass, containerIndex, mapIndex, arrayIndex)
    }

    /** Remaining() is the current element followed by Upcoming(). */
    lemma RemainingSplit()
      requires Valid() && HasValue()
      ensures Remaining() == [Current()] + Upcoming()
    {
      PositionsFromAtMatch(hierarchy, containers, desiredClass, containerIndex as nat, mapIndex as nat, arrayIndex as nat);
    }

    /** The private constructor: starts at (0, 0, -1) and advances at once. */
    constructor (tables: seq<Table>, desired: ClassKey, h: Hierarchy)
      requires h.Valid() && FitsInt16(tables)
      ensures Valid()
      ensures containers == tables && desiredClass == desired && hierarchy == h
      ensures Remaining() == AllPositions(h, tables, desired)
    {
      containers := tables;
      desiredClass := desired;
      hierarchy := h;
      containerIndex, mapIndex, arrayIndex := 0, 0, -1;
      new;
      Advance();
    }

    /** The resolver at the cursor. */
    function CurrentResolver(): (r: Resolver)
      reads this
      requires Valid() && HasValue()
      ensures ResolverAt(containers, Current()) == Some(r)
    {
      containers[containerIndex][mapIndex].value.resolvers[arrayIndex]
    }

    /** The inner loop of Advance: scans the map slots of container `ci`
        from (mi, ai) on for the next element, skipping holes and keys that
        are not children of the desired class. The key is only checked when
        a slot is entered (ai == 0). */
    method SeekInContainer(ci: int16, mi: int16, ai: int16) returns (found: bool, mi': int16, ai': int16)
      requires Fits() && 0 <= ci as int < |containers|
      requires 0 <= mi as int <= |containers[ci]| && 0 <= ai
      requires ai != 0 ==> (mi as int < |containers[ci]|
        && SlotMatches(hierarchy, containers[ci][mi], desiredClass)
        && ai as int <= SlotSize(containers[ci][mi]))
      ensures found ==> 0 <= mi' && 0 <= ai' && IsMatch(hierarchy, containers, desiredClass, Pos(ci as nat, mi' as nat, ai' as nat))
      ensures found ==> (PositionsFrom(hierarchy, containers, desiredClass, ci as nat, mi' as nat, ai' as nat)
        == PositionsFrom(hierarchy, containers, desiredClass, ci as nat, mi as nat, ai as nat))
      ensures !found ==> (PositionsFrom(hierarchy, containers, desiredClass, ci as nat, mi as nat, ai as nat)
        == PositionsFrom(hierarchy, containers, desiredClass, ci as nat + 1, 0, 0))
    {
      var map_ := containers[ci];
      mi', ai' := mi, ai;
      while (mi' as int) < |map_|
        invariant 0 <= mi' as int <= |map_|
        invariant 0 <= ai'
        invariant ai' != 0 ==> mi' as int < |map_|
        invariant ai' != 0 ==> SlotMatches(hierarchy, map_[mi'], desiredClass)
        invariant ai' != 0 ==> ai' as int <= SlotSize(map_[mi'])
        invariant PositionsFrom(hierarchy, containers, desiredClass, ci as nat, mi' as nat, ai' as nat)
          == PositionsFrom(hierarchy, containers, desiredClass, ci as nat, mi as nat, ai as nat)
        decreases |map_| - mi' as int
      {
        // A hole in the map's storage holds no entry: step over it.
        if map_[mi'].None? {
          PositionsFromSkipSlot(hierarchy, containers, desiredClass, ci as nat, mi' as nat, ai' as nat);
          mi' := mi' + 1;
          continue;
        }
        var pair := map_[mi'].value;
        if ai' == 0 && !hierarchy.IsChildOf(pair.key, desiredClass) {
          PositionsFromSkipSlot(hierarchy, containers, desiredClass, ci as nat, mi' as nat, ai' as nat);
          mi' := mi' + 1;
          continue;
        }
        if (ai' as int) < |pair.resolvers| {
          return true, mi', ai';
        }
        PositionsFromSkipSlot(hierarchy, containers, desiredClass, ci as nat, mi' as nat, ai' as nat);
        mi' := mi' + 1;
        ai' := 0;
      }
      PositionsFromNextContainer(hierarchy, containers, desiredClass, ci as nat, mi' as nat, ai' as nat);
      found := false;
    }

    /** The loop of Advance: scans the containers from `ci` on, starting at
        map slot `mi` and array index `ai`, for the next element; a
        container that holds none resets the cursor to its next container's
        first slot. */
    method Seek(ci: int16, mi: int16, ai: int16) returns (found: bool, ci': int16, mi': int16, ai': int16)
      requires Fits() && 0 <= ci && 0 <= mi && 0 <= ai
      requires ci as int <= |containers| && (ci as int < |containers| ==> mi as int <= |containers[ci]|)
      requires ai != 0 ==> (ci as int < |containers| && mi as int < |containers[ci]|
        && SlotMatches(hierarchy, containers[ci][mi], desiredClass)
        && ai as int <= SlotSize(containers[ci][mi]))
      ensures found ==> (CursorAt(hierarchy, containers, desiredClass, ci', mi', ai')
        && PositionsFrom(hierarchy, containers, desiredClass, ci' as nat, mi' as nat, ai' as nat)
          == PositionsFrom(hierarchy, containers, desiredClass, ci as nat, mi as nat, ai as nat))
      ensures !found ==> PositionsFrom(hierarchy, containers, desiredClass, ci as nat, mi as nat, ai as nat) == []
    {
      ci', mi', ai' := ci, mi, ai;
      while (ci' as int) < |containers|
        invariant 0 <= ci' as int <= |containers|
        invariant 0 <= mi' && 0 <= ai'
        invariant ci' as int < |containers| ==> mi' as int <= |containers[ci']|
        invariant ai' != 0 ==> (ci' as int < |containers| && mi' as int < |containers[ci']|
          && SlotMatches(hierarchy, containers[ci'][mi'], desiredClass)
          && ai' as int <= SlotSize(containers[ci'][mi']))
        invariant PositionsFrom(hierarchy, containers, desiredClass, ci' as nat, mi' as nat, ai' as nat)
          == PositionsFrom(hierarchy, containers, desiredClass, ci as nat, mi as nat, ai as nat)
        decreases |containers| - ci' as int
      {
        var inContainer, m, a := SeekInContainer(ci', mi', ai');
        if inContainer {
          return true, ci', m, a;
        }
        ci', mi', ai' := ci' + 1, 0, 0;
      }
      found := false;
    }

    /** Advance's step on a cursor that has a value (or has not started):
        the cursor after the next element, or INDEX_NONE when there is none. */
    method Step(ci: int16, mi: int16, ai: int16) returns (ci': int16, mi': int16, ai': int16)
      requires Fits() && ci != IndexNone
      requires CursorAt(hierarchy, containers, desiredClass, ci, mi, ai) || (ci == 0 && mi == 0 && ai == -1)
      ensures ci' != IndexNone ==> CursorAt(hierarchy, containers, desiredClass, ci', mi', ai')
      ensures RemainingFrom(hierarchy, containers, desiredClass, ci', mi', ai')
        == PositionsFrom(hierarchy, containers, desiredClass, ci as nat, mi as nat, (ai + 1) as nat)
    {
      var found;
      found, ci', mi', ai' := Seek(ci, mi, ai + 1);
      if !found {
        // Nothing left: the container index becomes INDEX_NONE.
        ci' := IndexNone;
      }
    }

    /** Moves to the next element; on an exhausted iterator nothing changes. */
    method Advance()
      requires Valid() || BeforeFirst()
      modifies this
      ensures Valid()
      ensures old(!HasValue()) ==> unchanged(this)
      ensures Remaining() == old(Upcoming())
    {
      if !HasValue() {
        return;
      }
      containerIndex, mapIndex, arrayIndex := Step(containerIndex, mapIndex, arrayIndex);
    }

    /** Returns the handler's existing object; resolves a new one only when
        there is none and creation was asked for. `existing` is what the
        lifetime handler's Get returns, `resolveImpl` stands for
        UObjectContainer::ResolveImpl. */
    method Get(createIfNotExists: bool, existing: Handler -> ObjectPtr, resolveImpl: Resolver -> ObjectPtr)
      returns (result: ObjectPtr, resolved: bool)
      requires Valid() && HasValue()
      ensures resolved <==> createIfNotExists && existing(CurrentResolver().handler).None?
      ensures !resolved ==> result == existing(CurrentResolver().handler)
      ensures resolved ==> result == resolveImpl(CurrentResolver())
    {
      var resolver := containers[containerIndex][mapIndex].value.resolvers[arrayIndex];
      result := existing(resolver.handler);
      resolved := false;
      if result.None? && createIfNotExists {
        result := resolveImpl(resolver);
        resolved := true;
      }
    }
  }

  lemma AppendAssoc(a: seq<Pos>, b: seq<Pos>, c: seq<Pos>)
    ensures a + (b + c) == (a + b) + c
  {
  }

  /** One round of the client loop: reads the resolver at the cursor
      (`*It`) and advances (`++It`). */
  method Next(it: ObjectContainerIterator) returns (r: Resolver)
    requires it.Valid() && it.HasValue()
    modifies it
    ensures it.Valid()
    ensures ResolverAt(it.containers, old(it.Current())) == Some(r)
    ensures old(it.Remaining()) == [old(it.Current())] + it.Remaining()
  {
    r := it.CurrentResolver();
    it.RemainingSplit();
    it.Advance();
  }

  /** A client loop `for (; It; ++It)` that collects every resolver the
      iterator points at: exactly the remaining elements, in order. */
  method VisitAll(it: ObjectContainerIterator) returns (visited: seq<Resolver>)
    requires it.Valid()
    modifies it
    ensures it.Valid() && !it.HasValue()
    ensures |visited| == |old(it.Remaining())|
    ensures forall i :: 0 <= i < |visited| ==> ResolverAt(it.containers, old(it.Remaining())[i]) == Some(visited[i])
  {
    ghost var all := it.Remaining();
    ghost var done: seq<Pos> := [];
    visited := [];
    while it.HasValue()
      invariant it.Valid()
      invariant all == done + it.Remaining()
      invariant |visited| == |done|
      invariant forall i :: 0 <= i < |done| ==> ResolverAt(it.containers, done[i]) == Some(visited[i])
      decreases |it.Remaining()|
    {
      ghost var cur := it.Current();
      var r := Next(it);
      AppendAssoc(done, [cur], it.Remaining());
      done := done + [cur];
      visited := visited + [r];
    }
  }
}
