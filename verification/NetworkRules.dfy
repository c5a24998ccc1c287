/**
 * The networks of `NetworkController` as values, the routing rules that they call for in the kernel, and how
 * that rule table changes with them.
 */
module NetworkModel {

  type Iface = string
  type NetId = nat

  const NETID_UNSET: NetId := 0
  const MIN_NET_ID := 100
  const MAX_NET_ID := 65535
  const MIN_OEM_ID := 1
  const MAX_OEM_ID := 50
  const DUMMY_NET_ID: NetId := 51
  const LOCAL_NET_ID: NetId := 99
  const DUMMY_INTERFACE: Iface := "dummy0"

  const EEXIST := 17
  const EBUSY := 16
  const EINVAL := 22
  const ENONET := 64
  const ESRCH := 3

  datatype Permission = PermNone | PermNetwork | PermSystem

  datatype Network =
    | Local(ifaces: set<Iface>)
    | Dummy(ifaces: set<Iface>)
    | Physical(ifaces: set<Iface>, permission: Permission, isDefault: bool)
    | Virtual(ifaces: set<Iface>, hasDns: bool, secure: bool)

  type Networks = map<NetId, Network>

  /** The rules of the kernel; those that `modifyPhysicalNetwork` and its like set together count as one. */
  datatype Rule =
    | DefaultRule(iface: Iface, permission: Permission)
    | FallthroughRule(vpn: NetId, iface: Iface, permission: Permission)
    | PhysicalRule(net: NetId, iface: Iface, permission: Permission)
    | MemberRule(net: NetId, iface: Iface)

  // ----- the rule table that a state calls for

  function Vpns(nets: Networks): set<NetId> {
    set v | v in nets && nets[v].Virtual?
  }

  function Fallthrough(vpns: set<NetId>, ifaces: set<Iface>, p: Permission): set<Rule> {
    set v, i | v in vpns && i in ifaces :: FallthroughRule(v, i, p)
  }

  /** The rules that make interfaces part of the default network. */
  function DefaultBundle(vpns: set<NetId>, ifaces: set<Iface>, p: Permission): set<Rule> {
    (set i | i in ifaces :: DefaultRule(i, p)) + Fallthrough(vpns, ifaces, p)
  }

  function PhysicalBundle(n: NetId, ifaces: set<Iface>, p: Permission): set<Rule> {
    set i | i in ifaces :: PhysicalRule(n, i, p)
  }

  /** One rule per interface of the default network, and per pair of it with a VPN. */
  function DefaultRules(nets: Networks, default: NetId): set<Rule> {
    if default in nets && nets[default].Physical? then
      DefaultBundle(Vpns(nets), nets[default].ifaces, nets[default].permission)
    else {}
  }

  /** The rules of the interfaces themselves, whatever the default network. */
  function NetworkRules(nets: Networks): set<Rule> {
    (set n, i | n in nets && nets[n].Physical? && i in nets[n].ifaces :: PhysicalRule(n, i, nets[n].permission)) +
    (set n, i | n in nets && (nets[n].Local? || nets[n].Virtual?) && i in nets[n].ifaces :: MemberRule(n, i))
  }

  function Expected(nets: Networks, default: NetId): set<Rule> {
    DefaultRules(nets, default) + NetworkRules(nets)
  }

  // ----- the structural invariant

  ghost predicate OwnedOnce(nets: Networks) {
    forall a, b, i :: a in nets && b in nets && i in nets[a].ifaces && i in nets[b].ifaces ==> a == b
  }

  /** Network ids are set and fit the 16 bits of a socket mark. */
  ghost predicate IdsInRange(nets: Networks) {
    forall n :: n in nets ==> NETID_UNSET < n <= MAX_NET_ID
  }

  ghost predicate DefaultExists(nets: Networks, default: NetId) {
    default != NETID_UNSET ==> default in nets && nets[default].Physical? && nets[default].isDefault
  }

  /** Only the default network is flagged; this can break only after a failure. */
  ghost predicate FlaggedOnce(nets: Networks, default: NetId) {
    forall n :: n in nets && nets[n].Physical? && nets[n].isDefault ==> n == default
  }

  // ----- set algebra of the bundles

  lemma {:induction false} FallthroughByVpn(vpns: set<NetId>, v: NetId, ifaces: set<Iface>, p: Permission)
    ensures Fallthrough(vpns + {v}, ifaces, p) == Fallthrough(vpns, ifaces, p) + Fallthrough({v}, ifaces, p)
  {}

  lemma {:induction false} FallthroughByIface(vpns: set<NetId>, ifaces: set<Iface>, i: Iface, p: Permission)
    ensures Fallthrough(vpns, ifaces + {i}, p) == Fallthrough(vpns, ifaces, p) + Fallthrough(vpns, {i}, p)
  {}

  lemma {:induction false} BundleByIface(vpns: set<NetId>, ifaces: set<Iface>, i: Iface, p: Permission)
    ensures DefaultBundle(vpns, ifaces + {i}, p) == DefaultBundle(vpns, ifaces, p) + DefaultBundle(vpns, {i}, p)
  {
    FallthroughByIface(vpns, ifaces, i, p);
    assert (set j | j in ifaces + {i} :: DefaultRule(j, p)) ==
           (set j | j in ifaces :: DefaultRule(j, p)) + {DefaultRule(i, p)};
    assert (set j | j in {i} :: DefaultRule(j, p)) == {DefaultRule(i, p)};
  }

  lemma {:induction false} BundlesDisjoint(vpns: set<NetId>, a: set<Iface>, p: Permission, b: set<Iface>, q: Permission)
    requires a !! b || p != q
    ensures DefaultBundle(vpns, a, p) !! DefaultBundle(vpns, b, q)
  {}

  /** The bundle of one more interface is a part of the whole that is not done yet. */
  lemma {:induction false} BundleOfIface(vpns: set<NetId>, ifaces: set<Iface>, done: set<Iface>, i: Iface,
                                         p: Permission)
    requires i in ifaces && i !in done
    ensures DefaultBundle(vpns, {i}, p) <= DefaultBundle(vpns, ifaces, p)
    ensures DefaultBundle(vpns, {i}, p) !! DefaultBundle(vpns, done, p)
  {}

  ghost predicate IsNetworkRule(nets: Networks, r: Rule) {
    match r
    case PhysicalRule(n, i, p) => n in nets && nets[n].Physical? && i in nets[n].ifaces && p == nets[n].permission
    case MemberRule(n, i) => n in nets && (nets[n].Local? || nets[n].Virtual?) && i in nets[n].ifaces
    case _ => false
  }

  lemma {:induction false} NetworkRuleOf(nets: Networks, r: Rule)
    ensures r in NetworkRules(nets) <==> IsNetworkRule(nets, r)
  {
    if IsNetworkRule(nets, r) {
      var n, i := r.net, r.iface;
      assert n in nets && i in nets[n].ifaces;
    }
  }

  ghost predicate IsDefaultRule(vpns: set<NetId>, ifaces: set<Iface>, p: Permission, r: Rule) {
    match r
    case DefaultRule(i, q) => i in ifaces && q == p
    case FallthroughRule(v, i, q) => v in vpns && i in ifaces && q == p
    case _ => false
  }

  lemma {:induction false} BundleRuleOf(vpns: set<NetId>, ifaces: set<Iface>, p: Permission, r: Rule)
    ensures r in DefaultBundle(vpns, ifaces, p) <==> IsDefaultRule(vpns, ifaces, p, r)
  {}

  /** `r` belongs to the table that the state calls for. */
  ghost predicate Wanted(nets: Networks, default: NetId, r: Rule) {
    || IsNetworkRule(nets, r)
    || (default in nets && nets[default].Physical?
        && IsDefaultRule(Vpns(nets), nets[default].ifaces, nets[default].permission, r))
  }

  lemma {:induction false} ExpectedIs(nets: Networks, default: NetId, r: Rule)
    ensures r in Expected(nets, default) <==> Wanted(nets, default, r)
  {
    NetworkRuleOf(nets, r);
    if default in nets && nets[default].Physical? {
      BundleRuleOf(Vpns(nets), nets[default].ifaces, nets[default].permission, r);
    }
  }

  // ----- how the table changes with the state

  /** `after` is `before` with the new rules `x` added, or with the existing rules `x` deleted. */
  ghost predicate Changed(before: set<Rule>, after: set<Rule>, x: set<Rule>, add: bool) {
    if add then before !! x && after == before + x else x <= before && after == before - x
  }

  /** The rules `x` can be added one by one, or deleted one by one, without any call being refused. */
  ghost predicate CanChange(rules: set<Rule>, x: set<Rule>, add: bool) {
    if add then rules !! x else x <= rules
  }

  /** With the part `done` of `full` changed, another part can still be. */
  lemma {:induction false} CanStillChange(before: set<Rule>, now: set<Rule>, done: set<Rule>, full: set<Rule>,
                                          x: set<Rule>, add: bool)
    requires CanChange(before, full, add) && Changed(before, now, done, add) && x <= full && x !! done
    ensures CanChange(now, x, add)
  {}

  /** With the part `gone` of the old rules replaced by `come`, the next old rules can go and new ones come. */
  lemma {:induction false} CanStillSwap(base: set<Rule>, now: set<Rule>, gone: set<Rule>, come: set<Rule>,
                                        x: set<Rule>, y: set<Rule>)
    requires now == base - gone + come && x <= base && y !! base && x !! gone && y !! come
    ensures CanChange(now, y, true) && CanChange(now + y, x, false)
  {}

  lemma {:induction false} ChangedTwice(a: set<Rule>, b: set<Rule>, c: set<Rule>, x: set<Rule>, y: set<Rule>, add: bool)
    requires Changed(a, b, x, add) && Changed(b, c, y, add)
    ensures Changed(a, c, x + y, add)
  {}

  /** The rules that depend on whether interfaces of network `n` belong to it. */
  function IfaceRules(nets: Networks, default: NetId, n: NetId, i: Iface): set<Rule>
    requires n in nets
  {
    match nets[n]
    case Local(_) => {MemberRule(n, i)}
    case Virtual(_, _, _) => {MemberRule(n, i)}
    case Dummy(_) => {}
    case Physical(_, p, _) =>
      {PhysicalRule(n, i, p)} + if n == default then DefaultBundle(Vpns(nets), {i}, p) else {}
  }

  function WithIfaces(nets: Networks, n: NetId, ifaces: set<Iface>): Networks
    requires n in nets
  {
    nets[n := nets[n].(ifaces := ifaces)]
  }

  lemma {:induction false} SameIfaces(nets: Networks, n: NetId)
    requires n in nets
    ensures WithIfaces(nets, n, nets[n].ifaces) == nets
  {
    assert nets[n].(ifaces := nets[n].ifaces) == nets[n];
  }

  lemma {:induction false} IfacesTwice(nets: Networks, n: NetId, a: set<Iface>, b: set<Iface>)
    requires n in nets
    ensures WithIfaces(WithIfaces(nets, n, a), n, b) == WithIfaces(nets, n, b)
  {}

  lemma {:induction false} SameVpns(nets: Networks, n: NetId, net: Network)
    requires n in nets && (nets[n].Virtual? <==> net.Virtual?)
    ensures Vpns(nets[n := net]) == Vpns(nets)
  {}

  lemma {:induction false} IfaceAdded(nets: Networks, default: NetId, n: NetId, i: Iface)
    requires n in nets && OwnedOnce(nets) && i !in nets[n].ifaces
    ensures Changed(Expected(nets, default), Expected(WithIfaces(nets, n, nets[n].ifaces + {i}), default),
                    IfaceRules(nets, default, n, i), true)
  {
    var nets' := WithIfaces(nets, n, nets[n].ifaces + {i});
    SameVpns(nets, n, nets'[n]);
    forall r
      ensures r in Expected(nets', default) <==> r in Expected(nets, default) || r in IfaceRules(nets, default, n, i)
      ensures !(r in Expected(nets, default) && r in IfaceRules(nets, default, n, i))
    {
      ExpectedIs(nets, default, r);
      ExpectedIs(nets', default, r);
      if nets[n].Physical? {
        BundleRuleOf(Vpns(nets), {i}, nets[n].permission, r);
      }
    }
  }

  lemma {:induction false} IfaceRemoved(nets: Networks, default: NetId, n: NetId, i: Iface)
    requires n in nets && OwnedOnce(nets) && i in nets[n].ifaces
    ensures Changed(Expected(nets, default), Expected(WithIfaces(nets, n, nets[n].ifaces - {i}), default),
                    IfaceRules(nets, default, n, i), false)
  {
    var nets' := WithIfaces(nets, n, nets[n].ifaces - {i});
    assert nets'[n].ifaces + {i} == nets[n].ifaces;
    assert WithIfaces(nets', n, nets'[n].ifaces + {i}) == nets;
    SameVpns(nets, n, nets'[n]);
    IfaceAdded(nets', default, n, i);
  }

  /** The flag of a network plays no part in the table. */
  lemma {:induction false} FlagIrrelevant(nets: Networks, default: NetId, n: NetId, flag: bool)
    requires n in nets && nets[n].Physical?
    ensures Expected(nets[n := nets[n].(isDefault := flag)], default) == Expected(nets, default)
  {
    var nets' := nets[n := nets[n].(isDefault := flag)];
    SameVpns(nets, n, nets'[n]);
    forall r ensures r in Expected(nets', default) <==> r in Expected(nets, default) {
      ExpectedIs(nets, default, r);
      ExpectedIs(nets', default, r);
    }
  }

  /** Making `n` the default network adds its bundle to a table without default network. */
  lemma {:induction false} DefaultAdded(nets: Networks, n: NetId)
    requires n in nets && nets[n].Physical? && NETID_UNSET !in nets
    ensures Changed(Expected(nets, NETID_UNSET), Expected(nets, n),
                    DefaultBundle(Vpns(nets), nets[n].ifaces, nets[n].permission), true)
  {
    forall r
      ensures r in Expected(nets, n) <==>
              r in Expected(nets, NETID_UNSET) || r in DefaultBundle(Vpns(nets), nets[n].ifaces, nets[n].permission)
      ensures !(r in Expected(nets, NETID_UNSET) && r in DefaultBundle(Vpns(nets), nets[n].ifaces, nets[n].permission))
    {
      ExpectedIs(nets, NETID_UNSET, r);
      ExpectedIs(nets, n, r);
      BundleRuleOf(Vpns(nets), nets[n].ifaces, nets[n].permission, r);
    }
  }

  /** Replacing default network `a` by `b`: add the bundle of `b`, then delete that of `a`. */
  lemma {:induction false} DefaultReplaced(nets: Networks, a: NetId, b: NetId, mid: set<Rule>, after: set<Rule>)
    requires NETID_UNSET !in nets && OwnedOnce(nets) && a != b
    requires a in nets && nets[a].Physical? && b in nets && nets[b].Physical?
    requires Changed(Expected(nets, a), mid, DefaultBundle(Vpns(nets), nets[b].ifaces, nets[b].permission), true)
    requires Changed(mid, after, DefaultBundle(Vpns(nets), nets[a].ifaces, nets[a].permission), false)
    ensures after == Expected(nets, b)
  {
    DefaultAdded(nets, a);
    DefaultAdded(nets, b);
    BundlesDisjoint(Vpns(nets), nets[a].ifaces, nets[a].permission, nets[b].ifaces, nets[b].permission);
  }

  /** Around a change of the default network no call is refused: the bundles are there to go, and free to come. */
  lemma {:induction false} DefaultCanChange(nets: Networks, d: NetId, n: NetId)
    requires NETID_UNSET !in nets && OwnedOnce(nets) && DefaultExists(nets, d) && d != n
    ensures n in nets && nets[n].Physical? ==>
              CanChange(Expected(nets, d), DefaultBundle(Vpns(nets), nets[n].ifaces, nets[n].permission), true)
    ensures d != NETID_UNSET ==>
              CanChange(Expected(nets, d), DefaultBundle(Vpns(nets), nets[d].ifaces, nets[d].permission), false)
  {
    if d != NETID_UNSET {
      DefaultAdded(nets, d);
    }
    if n in nets && nets[n].Physical? {
      DefaultAdded(nets, n);
      if d != NETID_UNSET {
        BundlesDisjoint(Vpns(nets), nets[d].ifaces, nets[d].permission, nets[n].ifaces, nets[n].permission);
      }
    }
  }

  /** A new VPN needs a fallthrough rule per interface of the default network. */
  lemma {:induction false} VpnAdded(nets: Networks, default: NetId, v: NetId, hasDns: bool, secure: bool)
    requires v !in nets && DefaultExists(nets, default) && NETID_UNSET !in nets
    ensures var ifaces := if default == NETID_UNSET then {} else nets[default].ifaces;
            var p := if default == NETID_UNSET then PermNone else nets[default].permission;
            Changed(Expected(nets, default), Expected(nets[v := Virtual({}, hasDns, secure)], default),
                    Fallthrough({v}, ifaces, p), true)
  {
    var ifaces := if default == NETID_UNSET then {} else nets[default].ifaces;
    var p := if default == NETID_UNSET then PermNone else nets[default].permission;
    var nets' := nets[v := Virtual({}, hasDns, secure)];
    assert Vpns(nets') == Vpns(nets) + {v};
    forall r
      ensures r in Expected(nets', default) <==> r in Expected(nets, default) || r in Fallthrough({v}, ifaces, p)
      ensures !(r in Expected(nets, default) && r in Fallthrough({v}, ifaces, p))
    {
      ExpectedIs(nets, default, r);
      ExpectedIs(nets', default, r);
      FallthroughRuleOf({v}, ifaces, p, r);
    }
  }

  lemma {:induction false} FallthroughRuleOf(vpns: set<NetId>, ifaces: set<Iface>, p: Permission, r: Rule)
    ensures r in Fallthrough(vpns, ifaces, p) <==>
            r.FallthroughRule? && r.vpn in vpns && r.iface in ifaces && r.permission == p
  {}

  /** A new physical network, or the loss of a network without rules, changes nothing. */
  lemma {:induction false} SilentNetwork(nets: Networks, default: NetId, n: NetId)
    requires n in nets && n != default && !nets[n].Virtual? && (nets[n].Dummy? || nets[n].ifaces == {})
    ensures Expected(nets - {n}, default) == Expected(nets, default)
  {
    var nets' := nets - {n};
    assert Vpns(nets') == Vpns(nets);
    forall r ensures r in Expected(nets', default) <==> r in Expected(nets, default) {
      ExpectedIs(nets, default, r);
      ExpectedIs(nets', default, r);
    }
  }

  lemma {:induction false} PhysicalByIface(n: NetId, ifaces: set<Iface>, i: Iface, p: Permission)
    ensures PhysicalBundle(n, ifaces + {i}, p) == PhysicalBundle(n, ifaces, p) + {PhysicalRule(n, i, p)}
  {}

  /** Replacing rules piece by piece: add the new ones of the piece, then delete its old ones. */
  lemma {:induction false} SwapStep(base: set<Rule>, a: set<Rule>, b: set<Rule>, c: set<Rule>,
                 gone: set<Rule>, come: set<Rule>, x: set<Rule>, y: set<Rule>)
    requires a == base - gone + come && Changed(a, b, y, true) && Changed(b, c, x, false)
    requires x !! y && x !! come
    ensures c == base - (gone + x) + (come + y)
  {}

  /** All the rules of physical network `n` that carry its permission, if that were `p`. */
  function PermissionRules(nets: Networks, default: NetId, n: NetId, p: Permission): set<Rule>
    requires n in nets
  {
    PhysicalBundle(n, nets[n].ifaces, p) + if n == default then DefaultBundle(Vpns(nets), nets[n].ifaces, p) else {}
  }

  /** Changing the permission of network `n` replaces its rules. */
  lemma {:induction false} PermissionChanged(nets: Networks, default: NetId, n: NetId, p: Permission)
    requires n in nets && nets[n].Physical? && nets[n].permission != p && OwnedOnce(nets)
    ensures Expected(nets[n := nets[n].(permission := p)], default) ==
            Expected(nets, default) - PermissionRules(nets, default, n, nets[n].permission)
            + PermissionRules(nets, default, n, p)
  {
    var q, ifaces := nets[n].permission, nets[n].ifaces;
    var nets' := nets[n := nets[n].(permission := p)];
    SameVpns(nets, n, nets'[n]);
    forall r
      ensures r in Expected(nets', default) <==>
              (r in Expected(nets, default) && r !in PermissionRules(nets, default, n, q))
              || r in PermissionRules(nets, default, n, p)
    {
      ExpectedIs(nets, default, r);
      ExpectedIs(nets', default, r);
      BundleRuleOf(Vpns(nets), ifaces, p, r);
      BundleRuleOf(Vpns(nets), ifaces, q, r);
    }
  }

  /** The rules of the old permission are there to go, those of the new one free to come. */
  lemma {:induction false} PermissionCanChange(nets: Networks, default: NetId, n: NetId, p: Permission)
    requires n in nets && nets[n].Physical? && nets[n].permission != p && OwnedOnce(nets)
    ensures PermissionRules(nets, default, n, nets[n].permission) <= Expected(nets, default)
    ensures PermissionRules(nets, default, n, p) !! Expected(nets, default)
  {
    forall r
      ensures r in PermissionRules(nets, default, n, nets[n].permission) ==> r in Expected(nets, default)
      ensures !(r in PermissionRules(nets, default, n, p) && r in Expected(nets, default))
    {
      ExpectedIs(nets, default, r);
      BundleRuleOf(Vpns(nets), nets[n].ifaces, p, r);
      BundleRuleOf(Vpns(nets), nets[n].ifaces, nets[n].permission, r);
    }
  }

  /** The default rules are untouched while the rules of the network itself are replaced. */
  lemma {:induction false} DefaultsKept(base: set<Rule>, n: NetId, vpns: set<NetId>, ifaces: set<Iface>, q: Permission,
                                        p: Permission)
    requires DefaultBundle(vpns, ifaces, q) <= base && DefaultBundle(vpns, ifaces, p) !! base
    ensures var now := base - PhysicalBundle(n, ifaces, q) + PhysicalBundle(n, ifaces, p);
            DefaultBundle(vpns, ifaces, q) <= now && DefaultBundle(vpns, ifaces, p) !! now
  {}

  /** The two replacements of `setPermission` together. */
  lemma {:induction false} SwapBoth(base: set<Rule>, n: NetId, vpns: set<NetId>, ifaces: set<Iface>, q: Permission,
                                    p: Permission)
    ensures base - PhysicalBundle(n, ifaces, q) + PhysicalBundle(n, ifaces, p)
            - DefaultBundle(vpns, ifaces, q) + DefaultBundle(vpns, ifaces, p) ==
            base - (PhysicalBundle(n, ifaces, q) + DefaultBundle(vpns, ifaces, q))
            + (PhysicalBundle(n, ifaces, p) + DefaultBundle(vpns, ifaces, p))
  {
    assert DefaultBundle(vpns, ifaces, q) !! PhysicalBundle(n, ifaces, p);
  }

  /** `setDefaultNetwork`: from default network `d` to `n`, either of which may be unset. */
  lemma {:induction false} SwitchedDefault(nets: Networks, d: NetId, n: NetId, mid: set<Rule>, after: set<Rule>)
    requires NETID_UNSET !in nets && OwnedOnce(nets) && DefaultExists(nets, d) && d != n
    requires n != NETID_UNSET ==> n in nets && nets[n].Physical?
    requires if n == NETID_UNSET then mid == Expected(nets, d)
             else Changed(Expected(nets, d), mid, DefaultBundle(Vpns(nets), nets[n].ifaces, nets[n].permission), true)
    requires if d == NETID_UNSET then after == mid
             else Changed(mid, after, DefaultBundle(Vpns(nets), nets[d].ifaces, nets[d].permission), false)
    ensures after == Expected(nets, n)
  {
    if n == NETID_UNSET {
      DefaultAdded(nets, d);
    } else if d == NETID_UNSET {
      DefaultAdded(nets, n);
    } else {
      DefaultReplaced(nets, d, n, mid, after);
    }
  }

  /** Dropping the default network once it has no interfaces left. */
  lemma {:induction false} EmptyDefaultDropped(nets: Networks, n: NetId)
    requires n in nets && nets[n].Physical? && nets[n].ifaces == {} && NETID_UNSET !in nets
    ensures DefaultBundle(Vpns(nets), nets[n].ifaces, nets[n].permission) == {}
    ensures Expected(nets - {n}, NETID_UNSET) == Expected(nets, n)
  {
    DefaultAdded(nets, n);
    SilentNetwork(nets, NETID_UNSET, n);
  }

  /** The fallthrough rules of a VPN are there to go. */
  lemma {:induction false} VpnCanGo(nets: Networks, d: NetId, v: NetId)
    requires v in nets && nets[v].Virtual? && DefaultExists(nets, d) && d != NETID_UNSET
    ensures CanChange(Expected(nets, d), Fallthrough({v}, nets[d].ifaces, nets[d].permission), false)
  {
    forall r | r in Fallthrough({v}, nets[d].ifaces, nets[d].permission) ensures r in Expected(nets, d) {
      FallthroughRuleOf({v}, nets[d].ifaces, nets[d].permission, r);
      ExpectedIs(nets, d, r);
    }
  }

  /** Dropping a VPN once it has no interfaces left and its fallthrough rules are deleted. */
  lemma {:induction false} VpnDropped(nets: Networks, d: NetId, v: NetId, after: set<Rule>)
    requires v in nets && nets[v].Virtual? && nets[v].ifaces == {} && NETID_UNSET !in nets
    requires DefaultExists(nets, d)
    requires if d == NETID_UNSET then after == Expected(nets, d)
             else Changed(Expected(nets, d), after, Fallthrough({v}, nets[d].ifaces, nets[d].permission), false)
    ensures after == Expected(nets - {v}, d)
  {
    var rest := nets - {v};
    VpnAdded(rest, d, v, nets[v].hasDns, nets[v].secure);
    assert rest[v := Virtual({}, nets[v].hasDns, nets[v].secure)] == nets;
  }

  // ----- the two halves of a change of the default network

  function Flagged(nets: Networks, n: NetId, flag: bool): Networks
    requires n in nets && nets[n].Physical?
  {
    nets[n := nets[n].(isDefault := flag)]
  }

  lemma {:induction false} FlaggedKeeps(nets: Networks, n: NetId, flag: bool)
    requires n in nets && nets[n].Physical?
    requires IdsInRange(nets) && OwnedOnce(nets)
    ensures IdsInRange(Flagged(nets, n, flag)) && OwnedOnce(Flagged(nets, n, flag))
    ensures Vpns(Flagged(nets, n, flag)) == Vpns(nets) && Flagged(nets, n, flag).Keys == nets.Keys
  {
    SameVpns(nets, n, nets[n].(isDefault := flag));
  }

  /** `nets1` and `mid` are the networks and the rules after the new default network `n` has been added. */
  ghost predicate NewAdded(nets: Networks, n: NetId, nets1: Networks, before: set<Rule>, mid: set<Rule>, ok: bool) {
    if n == NETID_UNSET then nets1 == nets && mid == before
    else
      && n in nets && nets[n].Physical? && nets1 == Flagged(nets, n, true)
      && (ok ==> Changed(before, mid, DefaultBundle(Vpns(nets), nets[n].ifaces, nets[n].permission), true))
  }

  lemma {:induction false} NewFlagged(nets: Networks, d: NetId, n: NetId, nets1: Networks, before: set<Rule>,
                                      mid: set<Rule>, ok: bool)
    requires IdsInRange(nets) && OwnedOnce(nets) && DefaultExists(nets, d) && d != n
    requires NewAdded(nets, n, nets1, before, mid, ok) && (ok ==> before == Expected(nets, d))
    ensures IdsInRange(nets1) && OwnedOnce(nets1) && DefaultExists(nets1, d) && nets1.Keys == nets.Keys
    ensures ok && d != NETID_UNSET ==>
              CanChange(mid, DefaultBundle(Vpns(nets1), nets1[d].ifaces, nets1[d].permission), false)
  {
    DefaultCanChange(nets, d, n);
    if n != NETID_UNSET {
      FlaggedKeeps(nets, n, true);
    }
  }

  lemma {:induction false} DefaultFlagged(nets: Networks, d: NetId, n: NetId, nets1: Networks, nets2: Networks,
                                          before: set<Rule>, mid: set<Rule>, after: set<Rule>, ok: bool)
    requires IdsInRange(nets) && OwnedOnce(nets) && DefaultExists(nets, d) && d != n
    requires NewAdded(nets, n, nets1, before, mid, ok) && IdsInRange(nets1) && OwnedOnce(nets1)
    requires DefaultExists(nets1, d)
    requires d == NETID_UNSET ==> nets2 == nets1 && after == mid
    requires d != NETID_UNSET ==>
               && nets2 == Flagged(nets1, d, false)
               && (ok ==> Changed(mid, after, DefaultBundle(Vpns(nets1), nets1[d].ifaces, nets1[d].permission), false))
    requires ok ==> before == Expected(nets, d) && FlaggedOnce(nets, d)
    ensures IdsInRange(nets2) && OwnedOnce(nets2) && DefaultExists(nets2, n) && nets2.Keys == nets1.Keys
    ensures ok ==> FlaggedOnce(nets2, n) && after == Expected(nets2, n)
  {
    if n != NETID_UNSET {
      FlaggedKeeps(nets, n, true);
      FlagIrrelevant(nets, n, n, true);
    }
    if d != NETID_UNSET {
      FlaggedKeeps(nets1, d, false);
      FlagIrrelevant(nets1, n, d, false);
    }
    if ok {
      SwitchedDefault(nets, d, n, mid, after);
    }
  }
}
