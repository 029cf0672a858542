/** Registration storage of one container: `TMap<UClass*, FResolversArray>`.
    The map is modelled by its storage layout, a sequence of slots that may
    hold holes; each used slot pairs a key with its ordered resolver array. */
module Registrations {
  import opened Wrappers
  import opened ClassModel

  datatype Lifetime = SingleInstance | Transient

  /** What a lifetime handler hands out: an instance supplied at registration
      time, or objects it constructs with the given lifetime. */
  datatype HandlerKind =
    | InstanceHandler(instance: ObjectId)
    | ConstructingHandler(lifetime: Lifetime)

  /** One shared lifetime handler object. Its identity is the container it
      was made for and its ordinal among the handlers made for it. */
  datatype Handler = Handler(owner: ObjectId, ordinal: nat, kind: HandlerKind)

  /** FResolver: the effective class paired with a shared lifetime handler. */
  datatype Resolver = Resolver(effectiveClass: ClassKey, handler: Handler)

  datatype Slot = Slot(key: ClassKey, resolvers: seq<Resolver>)

  type Table = seq<Option<Slot>>

  /** One `AddRegistration(Interface, EffectiveClass, Lifetime)` call. */
  datatype Binding = Binding(key: ClassKey, resolver: Resolver)

  /** No key occupies two slots, and no used slot has an empty array. */
  ghost predicate WellFormed(t: Table) {
    && (forall i, j {:trigger t[i].value.key, t[j].value.key} ::
          0 <= i < j < |t| && t[i].Some? && t[j].Some? ==> t[i].value.key != t[j].value.key)
    && (forall i {:trigger t[i].value.resolvers} :: 0 <= i < |t| && t[i].Some? ==> |t[i].value.resolvers| > 0)
  }

  /** TMap::Find: the slot that holds key `k`, if any. */
  function FindSlot(t: Table, k: ClassKey): (r: Option<nat>)
    ensures r.Some? ==> r.value < |t| && t[r.value].Some? && t[r.value].value.key == k
    ensures r.None? ==> forall i :: 0 <= i < |t| && t[i].Some? ==> t[i].value.key != k
  {
    if t == [] then None
    else if t[|t| - 1].Some? && t[|t| - 1].value.key == k then Some(|t| - 1)
    else FindSlot(t[..|t| - 1], k)
  }

  /** The resolver array stored under `k`; empty when `k` is absent. */
  function Lookup(t: Table, k: ClassKey): seq<Resolver> {
    match FindSlot(t, k)
    case None => []
    case Some(i) => t[i].value.resolvers
  }

  /** `Registrations.FindOrAdd(Key).Add(Resolver)`: appends to the key's
      array, or puts the key in a new slot after all existing ones. */
  function Add(t: Table, b: Binding): Table {
    match FindSlot(t, b.key)
    case None => t + [Some(Slot(b.key, [b.resolver]))]
    case Some(i) => t[i := Some(Slot(b.key, t[i].value.resolvers + [b.resolver]))]
  }

  /** A sequence of `AddRegistration` calls, in order. */
  function AddAll(t: Table, bs: seq<Binding>): Table
    decreases |bs|
  {
    if bs == [] then t else AddAll(Add(t, bs[0]), bs[1..])
  }

  /** The resolvers that `bs` binds under `k`, in call order. */
  function ResolversFor(bs: seq<Binding>, k: ClassKey): seq<Resolver>
    decreases |bs|
  {
    if bs == [] then []
    else (if bs[0].key == k then [bs[0].resolver] else []) + ResolversFor(bs[1..], k)
  }

  function SlotSize(s: Option<Slot>): nat {
    if s.Some? then |s.value.resolvers| else 0
  }

  /** Number of resolvers stored in the table, over all keys. */
  function Entries(t: Table): nat {
    if t == [] then 0 else Entries(t[..|t| - 1]) + SlotSize(t[|t| - 1])
  }

  lemma {:induction false} EntriesUpdate(t: Table, i: nat, s: Option<Slot>)
    requires i < |t|
    ensures Entries(t[i := s]) == Entries(t) - SlotSize(t[i]) + SlotSize(s)
    decreases |t|
  {
    var u := t[i := s];
    if i < |t| - 1 {
      assert u[..|u| - 1] == t[..|t| - 1][i := s];
      EntriesUpdate(t[..|t| - 1], i, s);
    } else {
      assert u[..|u| - 1] == t[..|t| - 1];
    }
  }

  /** In a well-formed table the slot that holds a key is the one Find returns. */
  lemma FindSlotUnique(t: Table, k: ClassKey, i: nat)
    requires WellFormed(t) && i < |t| && t[i].Some? && t[i].value.key == k
    ensures FindSlot(t, k) == Some(i)
  {
  }

  lemma AddWellFormed(t: Table, b: Binding)
    requires WellFormed(t)
    ensures WellFormed(Add(t, b))
  {
  }

  lemma AddEntries(t: Table, b: Binding)
    ensures Entries(Add(t, b)) == Entries(t) + 1
  {
    var u := Add(t, b);
    match FindSlot(t, b.key)
    case None =>
      assert u[..|u| - 1] == t;
    case Some(i) =>
      EntriesUpdate(t, i, u[i]);
  }

  lemma AddLookupOther(t: Table, b: Binding, k: ClassKey)
    requires WellFormed(t) && b.key != k
    ensures Lookup(Add(t, b), k) == Lookup(t, k)
  {
    var u := Add(t, b);
    AddWellFormed(t, b);
    match FindSlot(t, k)
    case None =>
      assert FindSlot(u, k).None? by {
        forall j | 0 <= j < |u| && u[j].Some? ensures u[j].value.key != k {
          if j < |t| && u[j] != t[j] {
            assert u[j].value.key == b.key;
          }
        }
      }
    case Some(j) =>
      assert u[j] == t[j];
      FindSlotUnique(u, k, j);
  }

  /** One AddRegistration keeps the table well formed, appends the resolver
      to exactly the array of its key and adds one entry in all. */
  lemma LookupAdd(t: Table, b: Binding, k: ClassKey)
    requires WellFormed(t)
    ensures WellFormed(Add(t, b))
    ensures Lookup(Add(t, b), k) == Lookup(t, k) + (if b.key == k then [b.resolver] else [])
    ensures Entries(Add(t, b)) == Entries(t) + 1
  {
    AddWellFormed(t, b);
    AddEntries(t, b);
    if b.key != k {
      AddLookupOther(t, b, k);
    } else {
      var u := Add(t, b);
      match FindSlot(t, k)
      case None =>
        FindSlotUnique(u, k, |t|);
      case Some(i) =>
        FindSlotUnique(u, k, i);
    }
  }

  lemma ResolversAssoc(a: seq<Resolver>, b: seq<Resolver>, c: seq<Resolver>)
    ensures (a + b) + c == a + (b + c)
  {
  }

  /** A sequence of AddRegistration calls: each key's array grows by exactly
      the resolvers bound under it, in call order, and nothing else changes. */
  lemma {:induction false} LookupAddAll(t: Table, bs: seq<Binding>, k: ClassKey)
    requires WellFormed(t)
    ensures WellFormed(AddAll(t, bs))
    ensures Lookup(AddAll(t, bs), k) == Lookup(t, k) + ResolversFor(bs, k)
    ensures Entries(AddAll(t, bs)) == Entries(t) + |bs|
    decreases |bs|
  {
    if bs != [] {
      var u := Add(t, bs[0]);
      LookupAdd(t, bs[0], k);
      LookupAddAll(u, bs[1..], k);
      var x := if bs[0].key == k then [bs[0].resolver] else [];
      ResolversAssoc(Lookup(t, k), x, ResolversFor(bs[1..], k));
    }
  }

  /** Running `a` and then `b` is running `a + b`. */
  lemma {:induction false} AddAllConcat(t: Table, a: seq<Binding>, b: seq<Binding>)
    ensures AddAll(t, a + b) == AddAll(AddAll(t, a), b)
    decreases |a|
  {
    if a != [] {
      assert (a + b)[1..] == a[1..] + b;
      AddAllConcat(Add(t, a[0]), a[1..], b);
    } else {
      assert a + b == b;
    }
  }

  lemma {:induction false} ResolversForConcat(a: seq<Binding>, b: seq<Binding>, k: ClassKey)
    ensures ResolversFor(a + b, k) == ResolversFor(a, k) + ResolversFor(b, k)
    decreases |a|
  {
    if a != [] {
      assert (a + b)[1..] == a[1..] + b;
      ResolversForConcat(a[1..], b, k);
    } else {
      assert a + b == b;
    }
  }

  /** A key receives resolvers exactly when some call binds it. */
  lemma {:induction false} ResolversForNonEmpty(bs: seq<Binding>, k: ClassKey)
    ensures ResolversFor(bs, k) != [] <==> exists i :: 0 <= i < |bs| && bs[i].key == k
    decreases |bs|
  {
    if bs != [] {
      ResolversForNonEmpty(bs[1..], k);
      if bs[0].key != k && ResolversFor(bs[1..], k) == [] {
        forall i | 0 <= i < |bs| ensures bs[i].key != k {
          if i > 0 {
            assert bs[i] == bs[1..][i - 1];
          }
        }
      }
      if ResolversFor(bs[1..], k) != [] {
        var i :| 0 <= i < |bs[1..]| && bs[1..][i].key == k;
        assert bs[i + 1].key == k;
      }
    }
  }

  lemma AddAllPair(t: Table, b0: Binding, b1: Binding)
    ensures AddAll(t, [b0, b1]) == Add(Add(t, b0), b1)
  {
    assert [b0, b1][1..] == [b1];
    assert [b1][1..] == [];
    assert AddAll(t, [b0, b1]) == AddAll(Add(t, b0), [b1]);
    assert AddAll(Add(t, b0), [b1]) == AddAll(Add(Add(t, b0), b1), []);
  }
}
