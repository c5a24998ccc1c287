/** What the operations of `NetworkController` do to the networks when no kernel call fails of itself. */
module NetworkOperations {
  import opened NetworkModel

  datatype Operation =
    | SetDefault(n: NetId)
    | CreatePhysical(n: NetId, p: Permission)
    | CreateVirtual(n: NetId, hasDns: bool, secure: bool)
    | Destroy(n: NetId)
    | AddInterface(n: NetId, i: Iface)
    | RemoveInterface(n: NetId, i: Iface)
    | SetPermissions(p: Permission, ns: seq<NetId>)

  /** The networks and the default network. */
  datatype Table = Table(nets: Networks, default: NetId)

  // ----- when an operation succeeds

  predicate IsPhysical(nets: Networks, n: NetId) {
    n in nets && nets[n].Physical?
  }

  /** No other network has the interface, and the network takes interfaces. */
  ghost predicate Addable(nets: Networks, n: NetId, i: Iface) {
    n in nets && !nets[n].Dummy? && forall m :: m in nets && i in nets[m].ifaces ==> m == n
  }

  predicate Removable(nets: Networks, n: NetId) {
    n in nets && !nets[n].Dummy?
  }

  predicate MayBeDefault(nets: Networks, default: NetId, n: NetId) {
    n == NETID_UNSET || n == default || IsPhysical(nets, n)
  }

  predicate FreeForPhysical(nets: Networks, n: NetId) {
    n !in nets && (MIN_NET_ID <= n <= MAX_NET_ID || MIN_OEM_ID <= n <= MAX_OEM_ID)
  }

  predicate FreeForVirtual(nets: Networks, n: NetId) {
    n !in nets && MIN_NET_ID <= n <= MAX_NET_ID
  }

  /** The local network stays, and the dummy network does not give up its interface. */
  predicate Destroyable(nets: Networks, n: NetId) {
    n in nets && n != LOCAL_NET_ID && (nets[n].Dummy? ==> nets[n].ifaces == {})
  }

  ghost predicate AllPhysical(nets: Networks, ns: seq<NetId>) {
    forall k :: 0 <= k < |ns| ==> IsPhysical(nets, ns[k])
  }

  ghost predicate Accepts(t: Table, op: Operation) {
    match op
    case SetDefault(n) => MayBeDefault(t.nets, t.default, n)
    case CreatePhysical(n, _) => FreeForPhysical(t.nets, n)
    case CreateVirtual(n, _, _) => FreeForVirtual(t.nets, n)
    case Destroy(n) => Destroyable(t.nets, n)
    case AddInterface(n, i) => Addable(t.nets, n, i)
    case RemoveInterface(n, _) => Removable(t.nets, n)
    case SetPermissions(_, ns) => AllPhysical(t.nets, ns)
  }

  // ----- what it leads to

  /** `n`, if it is physical, is the one network flagged as the default. */
  function Retagged(nets: Networks, n: NetId): Networks {
    map m | m in nets :: if nets[m].Physical? then nets[m].(isDefault := m == n) else nets[m]
  }

  /** The networks before the first that is not physical. */
  function Served(nets: Networks, ns: seq<NetId>): seq<NetId> {
    if ns == [] || !IsPhysical(nets, ns[0]) then [] else [ns[0]] + Served(nets, ns[1..])
  }

  function Permitted(nets: Networks, p: Permission, ns: seq<NetId>): Networks {
    map m | m in nets :: if m in ns && nets[m].Physical? then nets[m].(permission := p) else nets[m]
  }

  /** The local network excepted, a network goes even when not all of it can be taken down. */
  ghost function Performed(t: Table, op: Operation): Table {
    match op
    case Destroy(n) =>
      if n == LOCAL_NET_ID then t else Table(t.nets - {n}, if n == t.default then NETID_UNSET else t.default)
    case SetPermissions(p, ns) => t.(nets := Permitted(t.nets, p, Served(t.nets, ns)))
    case SetDefault(n) => if Accepts(t, op) then Table(Retagged(t.nets, n), n) else t
    case CreatePhysical(n, p) => if Accepts(t, op) then t.(nets := t.nets[n := Physical({}, p, false)]) else t
    case CreateVirtual(n, hasDns, secure) =>
      if Accepts(t, op) then t.(nets := t.nets[n := Virtual({}, hasDns, secure)]) else t
    case AddInterface(n, i) =>
      if Accepts(t, op) then t.(nets := WithIfaces(t.nets, n, t.nets[n].ifaces + {i})) else t
    case RemoveInterface(n, i) =>
      if Accepts(t, op) then t.(nets := WithIfaces(t.nets, n, t.nets[n].ifaces - {i})) else t
  }

  const FIRST: Table := Table(map[LOCAL_NET_ID := Local({}), DUMMY_NET_ID := Dummy({DUMMY_INTERFACE})], NETID_UNSET)

  /** The networks after a run. */
  ghost function Replay(ops: seq<Operation>): Table {
    if ops == [] then FIRST else Performed(Replay(ops[..|ops| - 1]), ops[|ops| - 1])
  }

  /** Whether operation `k` of a run succeeds. */
  ghost predicate Succeeds(ops: seq<Operation>, k: nat)
    requires k < |ops|
  {
    Accepts(Replay(ops[..k]), ops[k])
  }

  lemma {:induction false} ReplayNext(ops: seq<Operation>, k: nat)
    requires k < |ops|
    ensures Replay(ops[..k + 1]) == Performed(Replay(ops[..k]), ops[k])
  {
    assert ops[..k + 1][..k] == ops[..k];
  }

  // ----- the parts of the steps

  lemma {:induction false} RetaggedBoth(nets: Networks, d: NetId, n: NetId)
    requires FlaggedOnce(nets, d) && DefaultExists(nets, d) && d != n && (n != NETID_UNSET ==> IsPhysical(nets, n))
    requires NETID_UNSET !in nets
    ensures var nets1 := if n == NETID_UNSET then nets else Flagged(nets, n, true);
            Retagged(nets, n) == if d == NETID_UNSET then nets1 else Flagged(nets1, d, false)
  {
    var nets1 := if n == NETID_UNSET then nets else Flagged(nets, n, true);
    var nets2 := if d == NETID_UNSET then nets1 else Flagged(nets1, d, false);
    forall m | m in nets ensures Retagged(nets, n)[m] == nets2[m] {
    }
  }

  lemma {:induction false} RetaggedSame(nets: Networks, d: NetId)
    requires FlaggedOnce(nets, d) && DefaultExists(nets, d) && NETID_UNSET !in nets
    ensures Retagged(nets, d) == nets
  {
    forall m | m in nets ensures Retagged(nets, d)[m] == nets[m] {
    }
  }

  lemma {:induction false} ServedAll(nets: Networks, ns: seq<NetId>)
    ensures Served(nets, ns) == ns <==> AllPhysical(nets, ns)
  {
    if ns != [] {
      ServedAll(nets, ns[1..]);
      if IsPhysical(nets, ns[0]) {
        assert [ns[0]] + ns[1..] == ns;
        assert Served(nets, ns)[1..] == Served(nets, ns[1..]);
        if AllPhysical(nets, ns[1..]) {
          forall k | 0 <= k < |ns| ensures IsPhysical(nets, ns[k]) {
            assert k > 0 ==> ns[k] == ns[1..][k - 1];
          }
        }
      }
    }
  }

  lemma {:induction false} ServedUpTo(nets: Networks, ns: seq<NetId>, j: nat)
    requires j < |ns| && AllPhysical(nets, ns[..j]) && !IsPhysical(nets, ns[j])
    ensures Served(nets, ns) == ns[..j]
  {
    if j > 0 {
      assert ns[1..][..j - 1] == ns[..j][1..];
      ServedUpTo(nets, ns[1..], j - 1);
      assert ns[..j] == [ns[0]] + ns[1..][..j - 1] && ns[..j][0] == ns[0];
    }
  }

  lemma {:induction false} PermittedNext(nets: Networks, p: Permission, ns: seq<NetId>, j: nat)
    requires j < |ns| && IsPhysical(nets, ns[j])
    ensures var nets' := Permitted(nets, p, ns[..j]);
            && IsPhysical(nets', ns[j])
            && Permitted(nets, p, ns[..j + 1]) == nets'[ns[j] := nets'[ns[j]].(permission := p)]
  {
    assert ns[..j + 1] == ns[..j] + [ns[j]];
  }

  lemma {:induction false} PermittedNone(nets: Networks, p: Permission)
    ensures Permitted(nets, p, []) == nets
  {}
}
