/** The IResolver contract, stated over a container's inheritance chain: the
    registration tables of the containers from the root ancestor down to the
    container itself. The lookup walks from the container towards its root
    parent and the nearest container that registers a key wins. */
module Resolution {
  import opened Wrappers
  import opened ClassModel
  import opened Registrations

  type Chain = seq<Table>

  /** A resolver together with the index, in the chain, of its container. */
  datatype Resolved = Resolved(resolver: Resolver, container: nat)

  datatype ResolveError = NotRegistered(key: ClassKey)

  /** TFactory: bound to a resolver, or invalid. */
  datatype Factory = Factory(target: Option<Resolved>) {
    predicate IsValid() { target.Some? }
  }

  /** Whether the table at index `j` of the chain registers `k`. */
  predicate RegistersAt(chain: Chain, j: nat, k: ClassKey)
    requires j < |chain|
  {
    Lookup(chain[j], k) != []
  }

  /** The nearest container (the last in the chain) that registers `k`. */
  function NearestIndex(chain: Chain, k: ClassKey): (r: Option<nat>)
    ensures r.Some? ==> r.value < |chain| && RegistersAt(chain, r.value, k)
    ensures r.Some? ==> forall j :: r.value < j < |chain| ==> !RegistersAt(chain, j, k)
    ensures r.None? ==> forall j :: 0 <= j < |chain| ==> !RegistersAt(chain, j, k)
    decreases |chain|
  {
    if chain == [] then None
    else if Lookup(chain[|chain| - 1], k) != [] then Some(|chain| - 1)
    else
      var r := NearestIndex(chain[..|chain| - 1], k);
      assert forall j :: 0 <= j < |chain| - 1 ==> RegistersAt(chain, j, k) == RegistersAt(chain[..|chain| - 1], j, k);
      r
  }

  /** Some container of the chain holds at least one resolver for `k`. */
  predicate IsRegistered(chain: Chain, k: ClassKey) {
    NearestIndex(chain, k).Some?
  }

  /** The resolver single resolution uses: the first entry of the nearest
      container's array for `k`. A child's array shadows its parents'. */
  function FindResolver(chain: Chain, k: ClassKey): (r: Option<Resolved>)
    ensures r.Some? <==> exists j :: 0 <= j < |chain| && RegistersAt(chain, j, k)
    ensures r.Some? ==> r.value.container < |chain| && RegistersAt(chain, r.value.container, k)
    ensures r.Some? ==> r.value.resolver == Lookup(chain[r.value.container], k)[0]
    ensures r.Some? ==> forall j :: r.value.container < j < |chain| ==> !RegistersAt(chain, j, k)
  {
    match NearestIndex(chain, k)
    case None => None
    case Some(i) => Some(Resolved(Lookup(chain[i], k)[0], i))
  }

  /** Self or parent: a container that registers `k` answers with its own
      first resolver; one that does not defers to its parents. */
  lemma {:induction false} FindResolverSelfOrParent(parents: Chain, t: Table, k: ClassKey)
    ensures Lookup(t, k) != [] ==> FindResolver(parents + [t], k) == Some(Resolved(Lookup(t, k)[0], |parents|))
    ensures Lookup(t, k) == [] ==> FindResolver(parents + [t], k) == FindResolver(parents, k)
  {
    var chain := parents + [t];
    assert chain[|chain| - 1] == t;
    assert chain[..|chain| - 1] == parents;
  }

  /** The resolvers of one container, each tagged with the container's index. */
  function Tagged(rs: seq<Resolver>, i: nat): (r: seq<Resolved>)
    ensures |r| == |rs|
    ensures forall j :: 0 <= j < |rs| ==> r[j] == Resolved(rs[j], i)
  {
    seq(|rs|, j requires 0 <= j < |rs| => Resolved(rs[j], i))
  }

  /** Every entry registered under `k` anywhere in the chain, parents first
      and, within one container, in registration order. */
  function AllEntries(chain: Chain, k: ClassKey): seq<Resolved>
    decreases |chain|
  {
    if chain == [] then []
    else
      var n := |chain| - 1;
      var own := Lookup(chain[n], k);
      AllEntries(chain[..n], k) + Tagged(own, n)
  }

  function SumLengths(chain: Chain, k: ClassKey): nat
    decreases |chain|
  {
    if chain == [] then 0 else SumLengths(chain[..|chain| - 1], k) + |Lookup(chain[|chain| - 1], k)|
  }

  /** AllEntries holds exactly the registered resolvers: its length is the sum
      of the arrays' lengths, an entry of container `i` comes before every
      entry of a container after it, and each entry is one of its
      container's resolvers. AllEntriesComplete gives the exact positions. */
  lemma {:induction false} AllEntriesShape(chain: Chain, k: ClassKey)
    ensures |AllEntries(chain, k)| == SumLengths(chain, k)
    ensures forall p, q :: 0 <= p < q < |AllEntries(chain, k)| ==>
      AllEntries(chain, k)[p].container <= AllEntries(chain, k)[q].container
    ensures forall p :: 0 <= p < |AllEntries(chain, k)| ==>
      AllEntries(chain, k)[p].container < |chain| &&
      AllEntries(chain, k)[p].resolver in Lookup(chain[AllEntries(chain, k)[p].container], k)
    decreases |chain|
  {
    if chain != [] {
      var n := |chain| - 1;
      var pre := AllEntries(chain[..n], k);
      var own := Lookup(chain[n], k);
      var all := AllEntries(chain, k);
      AllEntriesShape(chain[..n], k);
      assert |all| == |pre| + |own|;
      forall p, q | 0 <= p < q < |all| ensures all[p].container <= all[q].container {
        if p < |pre| && q < |pre| {
          assert all[p] == pre[p] && all[q] == pre[q];
        } else if p < |pre| {
          assert all[p] == pre[p];
        }
      }
      forall p | 0 <= p < |all| ensures all[p].container < |chain| && all[p].resolver in Lookup(chain[all[p].container], k) {
        if p < |pre| {
          assert all[p] == pre[p] && chain[..n][pre[p].container] == chain[pre[p].container];
        } else {
          assert all[p] == Resolved(own[p - |pre|], n);
        }
      }
    }
  }

  lemma {:induction false} AllEntriesLength(chain: Chain, k: ClassKey)
    ensures |AllEntries(chain, k)| == SumLengths(chain, k)
    decreases |chain|
  {
    if chain != [] {
      AllEntriesLength(chain[..|chain| - 1], k);
    }
  }

  lemma AllEntriesSnoc(chain: Chain, k: ClassKey)
    requires chain != []
    ensures AllEntries(chain, k)
      == AllEntries(chain[..|chain| - 1], k) + Tagged(Lookup(chain[|chain| - 1], k), |chain| - 1)
  {
  }

  lemma PrefixAppend(x: seq<Resolved>, y: seq<Resolved>, z: seq<Resolved>)
    requires x <= y
    ensures x <= y + z
  {
    assert (y + z)[..|x|] == y[..|x|];
  }

  /** The entries of the first `m` containers are a prefix of the entries
      of the whole chain. */
  lemma {:induction false} AllEntriesPrefix(chain: Chain, k: ClassKey, m: nat)
    requires m <= |chain|
    ensures AllEntries(chain[..m], k) <= AllEntries(chain, k)
    decreases |chain|
  {
    if m < |chain| {
      var n := |chain| - 1;
      var pre := AllEntries(chain[..n], k);
      assert chain[..n][..m] == chain[..m];
      AllEntriesPrefix(chain[..n], k, m);
      AllEntriesSnoc(chain, k);
      PrefixAppend(AllEntries(chain[..m], k), pre, Tagged(Lookup(chain[n], k), n));
    } else {
      assert chain[..m] == chain;
    }
  }

  /** Every stored resolver appears in AllEntries, in place: container `i`'s
      array, in registration order and tagged with `i`, follows the entries
      of the containers before it (which are SumLengths(chain[..i], k)
      many). So no entry is missing or repeated, and within a container the
      registration order is kept. */
  lemma AllEntriesComplete(chain: Chain, k: ClassKey)
    ensures forall i :: 0 <= i < |chain| ==>
      |AllEntries(chain[..i], k)| == SumLengths(chain[..i], k) &&
      AllEntries(chain[..i], k) + Tagged(Lookup(chain[i], k), i) <= AllEntries(chain, k)
  {
    forall i | 0 <= i < |chain|
      ensures |AllEntries(chain[..i], k)| == SumLengths(chain[..i], k)
      ensures AllEntries(chain[..i], k) + Tagged(Lookup(chain[i], k), i) <= AllEntries(chain, k)
    {
      AllEntriesLength(chain[..i], k);
      AllEntriesBlock(chain, k, i);
    }
  }

  lemma AllEntriesBlock(chain: Chain, k: ClassKey, i: nat)
    requires i < |chain|
    ensures AllEntries(chain[..i], k) + Tagged(Lookup(chain[i], k), i) <= AllEntries(chain, k)
  {
    var c := chain[..i + 1];
    assert c[..i] == chain[..i] && c[i] == chain[i];
    AllEntriesSnoc(c, k);
    AllEntriesPrefix(chain, k, i + 1);
  }

  /** IsRegistered holds exactly when some container of the chain has an
      entry for `k`, that is when the chain-wide collection is not empty. */
  lemma {:induction false} RegisteredIffEntries(chain: Chain, k: ClassKey)
    ensures IsRegistered(chain, k) <==> AllEntries(chain, k) != []
    decreases |chain|
  {
    if chain != [] {
      var n := |chain| - 1;
      RegisteredIffEntries(chain[..n], k);
      AllEntriesSnoc(chain, k);
      if Lookup(chain[n], k) == [] {
        assert forall j :: 0 <= j < n ==> RegistersAt(chain[..n], j, k) == RegistersAt(chain, j, k);
      }
    }
  }

  /** Strict single resolution: the nearest container's first resolver
      supplies the object, and an unregistered key is a NotRegistered
      failure (the C++ call asserts there). `resolveImpl` stands for how
      the lifetime handler obtains the object. */
  function Resolve(chain: Chain, k: ClassKey, resolveImpl: Resolved -> ObjectPtr): (r: Result<ObjectPtr, ResolveError>)
    ensures r.Failure? <==> !IsRegistered(chain, k)
    ensures r.Failure? ==> r.error == NotRegistered(k)
    ensures r.Success? ==> r.value == resolveImpl(FindResolver(chain, k).value)
  {
    match FindResolver(chain, k)
    case None => Failure(NotRegistered(k))
    case Some(res) => Success(resolveImpl(res))
  }

  /** The non-asserting variant of Resolve: an unregistered key gives null. */
  function TryResolve(chain: Chain, k: ClassKey, resolveImpl: Resolved -> ObjectPtr): (r: ObjectPtr)
    ensures !IsRegistered(chain, k) ==> r == None
    ensures IsRegistered(chain, k) ==> Resolve(chain, k, resolveImpl) == Success(r)
  {
    Resolve(chain, k, resolveImpl).ToOption().GetOr(None)
  }

  /** Strict collection resolution: every entry for `k` in the chain, or
      a NotRegistered failure when there is none. */
  function ResolveAll(chain: Chain, k: ClassKey): (r: Result<seq<Resolved>, ResolveError>)
    ensures r.Failure? <==> !IsRegistered(chain, k)
    ensures r.Success? ==> r.value == AllEntries(chain, k) && r.value != []
    ensures r.Success? ==> FindResolver(chain, k).value in r.value
  {
    RegisteredIffEntries(chain, k);
    if IsRegistered(chain, k) then
      AllEntriesContainFound(chain, k);
      Success(AllEntries(chain, k))
    else Failure(NotRegistered(k))
  }

  lemma {:induction false} AllEntriesContainFound(chain: Chain, k: ClassKey)
    requires IsRegistered(chain, k)
    ensures FindResolver(chain, k).value in AllEntries(chain, k)
    decreases |chain|
  {
    var n := |chain| - 1;
    var own := Lookup(chain[n], k);
    if own != [] {
      var tail := Tagged(own, n);
      assert tail[0] == FindResolver(chain, k).value;
    } else {
      assert forall j :: 0 <= j < n ==> chain[..n][j] == chain[j];
      assert NearestIndex(chain[..n], k) == NearestIndex(chain, k);
      AllEntriesContainFound(chain[..n], k);
    }
  }

  /** The non-asserting variant of ResolveAll: an unregistered key gives
      the empty collection. */
  function TryResolveAll(chain: Chain, k: ClassKey): (r: seq<Resolved>)
    ensures !IsRegistered(chain, k) ==> r == []
    ensures IsRegistered(chain, k) ==> ResolveAll(chain, k) == Success(r)
  {
    match ResolveAll(chain, k)
    case Success(all) => all
    case Failure(_) => []
  }

  /** Strict factory resolution: a factory bound to the resolver single
      resolution would use, or a NotRegistered failure. */
  function ResolveFactory(chain: Chain, k: ClassKey): (r: Result<Factory, ResolveError>)
    ensures r.Failure? <==> !IsRegistered(chain, k)
    ensures r.Success? ==> r.value.IsValid() && r.value.target == FindResolver(chain, k)
  {
    match FindResolver(chain, k)
    case None => Failure(NotRegistered(k))
    case Some(res) => Success(Factory(Some(res)))
  }

  /** The non-asserting variant of ResolveFactory: an unregistered key
      gives the invalid factory. */
  function TryResolveFactory(chain: Chain, k: ClassKey): (r: Factory)
    ensures r.IsValid() <==> IsRegistered(chain, k)
    ensures IsRegistered(chain, k) ==> ResolveFactory(chain, k) == Success(r)
  {
    match ResolveFactory(chain, k)
    case Success(f) => f
    case Failure(_) => Factory(None)
  }
}
