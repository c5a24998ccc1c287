/**
 * `NetworkController` with its `PhysicalNetwork`s, and the rule table it maintains in the kernel.
 *
 * A kernel call may fail of itself at any point and may then leave any rules behind; `ok` records that none has so
 * far. It is also refused when it adds a rule that exists or deletes one that does not; `refused` counts such calls.
 * While `ok` holds, no call is ever refused and the rule table is exactly the one that the controller's state calls
 * for. The structural invariant holds on failing paths too.
 */
module NetworkControllerModel {
  import opened NetworkModel
  import opened NetworkOperations

  class NetworkController {
    var mNetworks: Networks
    var mDefaultNetId: NetId
    var rules: set<Rule>
    ghost var ok: bool
    ghost var refused: nat

    /** Every interface is in at most one network; the default network exists, is physical and is flagged. */
    ghost predicate Valid()
      reads this
    {
      && IdsInRange(mNetworks)
      && OwnedOnce(mNetworks)
      && DefaultExists(mNetworks, mDefaultNetId)
    }

    /** As long as no call has failed of itself, none was refused, and the rules are those that the state calls for. */
    ghost predicate Agrees()
      reads this
    {
      ok ==> refused == 0 && FlaggedOnce(mNetworks, mDefaultNetId) && rules == Expected(mNetworks, mDefaultNetId)
    }

    constructor ()
      ensures Valid() && ok && Agrees() && Contents() == FIRST
    {
      mNetworks := map[LOCAL_NET_ID := Local({}), DUMMY_NET_ID := Dummy({DUMMY_INTERFACE})];
      mDefaultNetId := NETID_UNSET;
      rules := {};
      ok, refused := true, 0;
      new;
      forall r ensures !Wanted(mNetworks, mDefaultNetId, r) {
      }
      forall r ensures r !in Expected(mNetworks, mDefaultNetId) {
        ExpectedIs(mNetworks, mDefaultNetId, r);
      }
    }

    // ----- kernel calls

    /**
     * Adds or deletes a rule. Any call may fail, and then nothing is known about the rules. As long as none has, the
     * rule must not exist yet, or must exist: the call would be refused.
     */
    method ModifyRule(rule: Rule, add: bool) returns (ret: int)
      requires ok ==> CanChange(rules, {rule}, add)
      modifies this`rules, this`ok, this`refused
      ensures ok == (old(ok) && ret == 0) && (ok ==> refused == old(refused))
      ensures ret == 0 ==> Changed(old(rules), rules, {rule}, add)
    {
      var fails: bool := *;
      if fails {
        ret :| ret < 0;
        rules := *;
        ok := false;
      } else if (rule in rules) == add {
        ret :| ret < 0;
        refused := refused + 1;
      } else {
        ret := 0;
        rules := if add then rules + {rule} else rules - {rule};
      }
    }

    /** `DelegateImpl::modifyFallthrough` for one interface and every VPN. */
    method ModifyFallthroughs(iface: Iface, p: Permission, add: bool) returns (ret: int)
      requires ok ==> CanChange(rules, Fallthrough(Vpns(mNetworks), {iface}, p), add)
      modifies this`rules, this`ok, this`refused
      ensures ok == (old(ok) && ret == 0) && (ok ==> refused == old(refused))
      ensures ret == 0 ==> Changed(old(rules), rules, Fallthrough(Vpns(mNetworks), {iface}, p), add)
    {
      var todo := Vpns(mNetworks);
      ghost var done := {};
      ret := 0;
      assert Fallthrough(done, {iface}, p) == {};
      while todo != {}
        invariant done + todo == Vpns(mNetworks) && done !! todo
        invariant ret == 0 && ok == old(ok) && (ok ==> refused == old(refused))
        invariant Changed(old(rules), rules, Fallthrough(done, {iface}, p), add)
        decreases todo
      {
        var v :| v in todo;
        ghost var before := rules;
        if ok {
          CanStillChange(old(rules), rules, Fallthrough(done, {iface}, p), Fallthrough(Vpns(mNetworks), {iface}, p),
                         {FallthroughRule(v, iface, p)}, add);
        }
        ret := ModifyRule(FallthroughRule(v, iface, p), add);
        if ret != 0 {
          return;
        }
        FallthroughByVpn(done, v, {iface}, p);
        assert Fallthrough({v}, {iface}, p) == {FallthroughRule(v, iface, p)};
        ChangedTwice(old(rules), before, rules, Fallthrough(done, {iface}, p), {FallthroughRule(v, iface, p)}, add);
        todo, done := todo - {v}, done + {v};
      }
      assert done == Vpns(mNetworks);
    }

    /** `modifyFallthroughLocked`: one VPN and every interface of the default network. */
    method ModifyFallthroughLocked(v: NetId, add: bool) returns (ret: int)
      requires DefaultExists(mNetworks, mDefaultNetId)
      requires ok && mDefaultNetId != NETID_UNSET ==>
                 var d := mNetworks[mDefaultNetId];
                 CanChange(rules, Fallthrough({v}, d.ifaces, d.permission), add)
      modifies this`rules, this`ok, this`refused
      ensures ok == (old(ok) && ret == 0) && (ok ==> refused == old(refused))
      ensures ret == 0 && mDefaultNetId == NETID_UNSET ==> rules == old(rules)
      ensures ret == 0 && mDefaultNetId != NETID_UNSET ==>
                var d := mNetworks[mDefaultNetId];
                Changed(old(rules), rules, Fallthrough({v}, d.ifaces, d.permission), add)
    {
      ret := 0;
      if mDefaultNetId == NETID_UNSET {
        return;
      }
      var d := mNetworks[mDefaultNetId];
      var todo := d.ifaces;
      ghost var done := {};
      assert Fallthrough({v}, done, d.permission) == {};
      while todo != {}
        invariant done + todo == d.ifaces && done !! todo
        invariant ret == 0 && ok == old(ok) && (ok ==> refused == old(refused))
        invariant Changed(old(rules), rules, Fallthrough({v}, done, d.permission), add)
        decreases todo
      {
        var i :| i in todo;
        ghost var before := rules;
        if ok {
          CanStillChange(old(rules), rules, Fallthrough({v}, done, d.permission),
                         Fallthrough({v}, d.ifaces, d.permission), {FallthroughRule(v, i, d.permission)}, add);
        }
        ret := ModifyRule(FallthroughRule(v, i, d.permission), add);
        if ret != 0 {
          return;
        }
        FallthroughByIface({v}, done, i, d.permission);
        assert Fallthrough({v}, {i}, d.permission) == {FallthroughRule(v, i, d.permission)};
        ChangedTwice(old(rules), before, rules, Fallthrough({v}, done, d.permission),
                     {FallthroughRule(v, i, d.permission)}, add);
        todo, done := todo - {i}, done + {i};
      }
      assert done == d.ifaces;
    }

    /** `addToDefault` and `removeFromDefault`. */
    method ModifyDefault(iface: Iface, p: Permission, add: bool) returns (ret: int)
      requires ok ==> CanChange(rules, DefaultBundle(Vpns(mNetworks), {iface}, p), add)
      modifies this`rules, this`ok, this`refused
      ensures ok == (old(ok) && ret == 0) && (ok ==> refused == old(refused))
      ensures ret == 0 ==> Changed(old(rules), rules, DefaultBundle(Vpns(mNetworks), {iface}, p), add)
    {
      assert DefaultRule(iface, p) in DefaultBundle(Vpns(mNetworks), {iface}, p);
      ret := ModifyRule(DefaultRule(iface, p), add);
      if ret != 0 {
        return;
      }
      ghost var mid := rules;
      if ok {
        CanStillChange(old(rules), rules, {DefaultRule(iface, p)}, DefaultBundle(Vpns(mNetworks), {iface}, p),
                       Fallthrough(Vpns(mNetworks), {iface}, p), add);
      }
      ret := ModifyFallthroughs(iface, p, add);
      if ret == 0 {
        assert (set i | i in {iface} :: DefaultRule(i, p)) == {DefaultRule(iface, p)};
        ChangedTwice(old(rules), mid, rules, {DefaultRule(iface, p)},
                     Fallthrough(Vpns(mNetworks), {iface}, p), add);
      }
    }

    // ----- PhysicalNetwork

    /** The loops of `addAsDefault` and `removeAsDefault`. */
    method ModifyAllDefaults(n: NetId, add: bool) returns (ret: int)
      requires n in mNetworks && mNetworks[n].Physical?
      requires ok ==>
                 CanChange(rules, DefaultBundle(Vpns(mNetworks), mNetworks[n].ifaces, mNetworks[n].permission), add)
      modifies this`rules, this`ok, this`refused
      ensures ok == (old(ok) && ret == 0) && (ok ==> refused == old(refused))
      ensures ret == 0 ==>
                Changed(old(rules), rules,
                        DefaultBundle(Vpns(mNetworks), mNetworks[n].ifaces, mNetworks[n].permission), add)
    {
      var todo, p := mNetworks[n].ifaces, mNetworks[n].permission;
      ghost var done, vpns := {}, Vpns(mNetworks);
      ret := 0;
      assert DefaultBundle(vpns, done, p) == {};
      while todo != {}
        invariant done + todo == mNetworks[n].ifaces && done !! todo
        invariant ret == 0 && ok == old(ok) && (ok ==> refused == old(refused))
        invariant Changed(old(rules), rules, DefaultBundle(vpns, done, p), add)
        decreases todo
      {
        var i :| i in todo;
        ghost var before := rules;
        BundleOfIface(vpns, mNetworks[n].ifaces, done, i, p);
        if ok {
          CanStillChange(old(rules), rules, DefaultBundle(vpns, done, p), DefaultBundle(vpns, mNetworks[n].ifaces, p),
                         DefaultBundle(vpns, {i}, p), add);
        }
        ret := ModifyDefault(i, p, add);
        if ret != 0 {
          return;
        }
        BundleByIface(vpns, done, i, p);
        ChangedTwice(old(rules), before, rules, DefaultBundle(vpns, done, p), DefaultBundle(vpns, {i}, p), add);
        todo, done := todo - {i}, done + {i};
      }
      assert done == mNetworks[n].ifaces;
    }

    /** `addAsDefault` (with `add`) and `removeAsDefault`. */
    method SetFlag(n: NetId, add: bool) returns (ret: int)
      requires n in mNetworks && mNetworks[n].Physical?
      requires ok && mNetworks[n].isDefault != add ==>
                 CanChange(rules, DefaultBundle(Vpns(mNetworks), mNetworks[n].ifaces, mNetworks[n].permission), add)
      modifies this`rules, this`ok, this`refused, this`mNetworks
      ensures ok == (old(ok) && ret == 0) && (ok ==> refused == old(refused))
      ensures mNetworks == if ret == 0 then Flagged(old(mNetworks), n, add) else old(mNetworks)
      ensures ret == 0 && old(mNetworks)[n].isDefault == add ==> rules == old(rules)
      ensures ret == 0 && old(mNetworks)[n].isDefault != add ==>
                var net := old(mNetworks)[n];
                Changed(old(rules), rules, DefaultBundle(Vpns(old(mNetworks)), net.ifaces, net.permission), add)
    {
      if mNetworks[n].isDefault == add {
        assert mNetworks == mNetworks[n := mNetworks[n].(isDefault := add)];
        return 0;
      }
      ret := ModifyAllDefaults(n, add);
      if ret == 0 {
        mNetworks := mNetworks[n := mNetworks[n].(isDefault := add)];
      }
    }

    /** The first loop of `setPermission`: `modifyPhysicalNetworkPermission` for every interface. */
    method SwapPhysicalRules(n: NetId, p: Permission) returns (ret: int)
      requires n in mNetworks && mNetworks[n].Physical? && mNetworks[n].permission != p
      requires ok ==> PhysicalBundle(n, mNetworks[n].ifaces, mNetworks[n].permission) <= rules
      requires ok ==> PhysicalBundle(n, mNetworks[n].ifaces, p) !! rules
      modifies this`rules, this`ok, this`refused
      ensures ok == (old(ok) && ret == 0) && (ok ==> refused == old(refused))
      ensures ret == 0 ==>
                var net := mNetworks[n];
                rules == old(rules) - PhysicalBundle(n, net.ifaces, net.permission) + PhysicalBundle(n, net.ifaces, p)
    {
      var todo, q := mNetworks[n].ifaces, mNetworks[n].permission;
      ghost var done := {};
      ret := 0;
      assert PhysicalBundle(n, done, p) == {} && PhysicalBundle(n, done, q) == {};
      while todo != {}
        invariant done + todo == mNetworks[n].ifaces && done !! todo
        invariant ret == 0 && ok == old(ok) && (ok ==> refused == old(refused))
        invariant rules == old(rules) - PhysicalBundle(n, done, q) + PhysicalBundle(n, done, p)
        decreases todo
      {
        var i :| i in todo;
        ghost var a := rules;
        if ok {
          CanStillSwap(old(rules), rules, PhysicalBundle(n, done, q), PhysicalBundle(n, done, p),
                       {PhysicalRule(n, i, q)}, {PhysicalRule(n, i, p)});
        }
        ret := ModifyRule(PhysicalRule(n, i, p), true);
        if ret != 0 {
          return;
        }
        ghost var b := rules;
        ret := ModifyRule(PhysicalRule(n, i, q), false);
        if ret != 0 {
          return;
        }
        SwapStep(old(rules), a, b, rules, PhysicalBundle(n, done, q), PhysicalBundle(n, done, p),
                 {PhysicalRule(n, i, q)}, {PhysicalRule(n, i, p)});
        PhysicalByIface(n, done, i, p);
        PhysicalByIface(n, done, i, q);
        todo, done := todo - {i}, done + {i};
      }
      assert done == mNetworks[n].ifaces;
    }

    /** The second loop of `setPermission`: new default rules in, old ones out, interface by interface. */
    method SwapDefaultRules(n: NetId, p: Permission) returns (ret: int)
      requires n in mNetworks && mNetworks[n].Physical? && mNetworks[n].permission != p
      requires ok ==> DefaultBundle(Vpns(mNetworks), mNetworks[n].ifaces, mNetworks[n].permission) <= rules
      requires ok ==> DefaultBundle(Vpns(mNetworks), mNetworks[n].ifaces, p) !! rules
      modifies this`rules, this`ok, this`refused
      ensures ok == (old(ok) && ret == 0) && (ok ==> refused == old(refused))
      ensures ret == 0 ==>
                var net, vpns := mNetworks[n], Vpns(mNetworks);
                rules == old(rules) - DefaultBundle(vpns, net.ifaces, net.permission) +
                         DefaultBundle(vpns, net.ifaces, p)
    {
      var todo, q := mNetworks[n].ifaces, mNetworks[n].permission;
      ghost var done, vpns := {}, Vpns(mNetworks);
      ret := 0;
      assert DefaultBundle(vpns, done, p) == {} && DefaultBundle(vpns, done, q) == {};
      while todo != {}
        invariant done + todo == mNetworks[n].ifaces && done !! todo
        invariant ret == 0 && ok == old(ok) && (ok ==> refused == old(refused))
        invariant rules == old(rules) - DefaultBundle(vpns, done, q) + DefaultBundle(vpns, done, p)
        decreases todo
      {
        var i :| i in todo;
        ghost var a := rules;
        BundleOfIface(vpns, mNetworks[n].ifaces, done, i, p);
        BundleOfIface(vpns, mNetworks[n].ifaces, done, i, q);
        if ok {
          CanStillSwap(old(rules), rules, DefaultBundle(vpns, done, q), DefaultBundle(vpns, done, p),
                       DefaultBundle(vpns, {i}, q), DefaultBundle(vpns, {i}, p));
        }
        ret := ModifyDefault(i, p, true);
        if ret != 0 {
          return;
        }
        ghost var b := rules;
        ret := ModifyDefault(i, q, false);
        if ret != 0 {
          return;
        }
        BundlesDisjoint(vpns, {i}, q, {i}, p);
        BundlesDisjoint(vpns, {i}, q, done, p);
        SwapStep(old(rules), a, b, rules, DefaultBundle(vpns, done, q), DefaultBundle(vpns, done, p),
                 DefaultBundle(vpns, {i}, q), DefaultBundle(vpns, {i}, p));
        BundleByIface(vpns, done, i, p);
        BundleByIface(vpns, done, i, q);
        todo, done := todo - {i}, done + {i};
      }
      assert done == mNetworks[n].ifaces;
    }

    /** `PhysicalNetwork::setPermission`. */
    method SetPermission(n: NetId, p: Permission) returns (ret: int)
      requires Valid() && Agrees() && n in mNetworks && mNetworks[n].Physical?
      modifies this`rules, this`ok, this`refused, this`mNetworks
      ensures Valid() && Agrees() && ok == (old(ok) && ret == 0)
      ensures mNetworks == if ret == 0 then old(mNetworks)[n := old(mNetworks)[n].(permission := p)] else old(mNetworks)
    {
      if p == mNetworks[n].permission {
        assert mNetworks == mNetworks[n := mNetworks[n].(permission := p)];
        return 0;
      }
      ghost var q, ifaces, vpns := mNetworks[n].permission, mNetworks[n].ifaces, Vpns(mNetworks);
      if ok {
        PermissionCanChange(mNetworks, mDefaultNetId, n, p);
      }
      ret := SwapPhysicalRules(n, p);
      if ret != 0 {
        return;
      }
      if mNetworks[n].isDefault {
        if ok {
          DefaultsKept(old(rules), n, vpns, ifaces, q, p);
        }
        ret := SwapDefaultRules(n, p);
        if ret != 0 {
          return;
        }
      }
      if ok {
        PermissionChanged(mNetworks, mDefaultNetId, n, p);
        SwapBoth(old(rules), n, vpns, ifaces, q, p);
      }
      mNetworks := mNetworks[n := mNetworks[n].(permission := p)];
    }

    /** `addInterface` of the four kinds of network. */
    method AddIface(n: NetId, i: Iface) returns (ret: int)
      requires Valid() && Agrees() && n in mNetworks
      requires forall m :: m in mNetworks && i in mNetworks[m].ifaces ==> m == n
      modifies this`rules, this`ok, this`refused, this`mNetworks
      ensures Valid() && Agrees() && (ok ==> old(ok))
      ensures mNetworks == if ret != 0 then old(mNetworks)
                           else WithIfaces(old(mNetworks), n, old(mNetworks)[n].ifaces + {i})
      ensures ok ==> (ret == 0 <==> !old(mNetworks)[n].Dummy?)
      ensures old(mNetworks)[n].Dummy? ==> ret == -EINVAL
    {
      if mNetworks[n].Dummy? {
        return -EINVAL;
      }
      if i in mNetworks[n].ifaces {
        assert mNetworks[n].ifaces + {i} == mNetworks[n].ifaces;
        SameIfaces(mNetworks, n);
        return 0;
      }
      ghost var before := rules;
      if ok {
        IfaceAdded(mNetworks, mDefaultNetId, n, i);
      }
      if mNetworks[n].Physical? {
        ret := ModifyRule(PhysicalRule(n, i, mNetworks[n].permission), true);
        if ret == 0 && mNetworks[n].isDefault {
          ghost var mid := rules;
          ret := ModifyDefault(i, mNetworks[n].permission, true);
          if ret == 0 {
            ChangedTwice(before, mid, rules, {PhysicalRule(n, i, mNetworks[n].permission)},
                         DefaultBundle(Vpns(mNetworks), {i}, mNetworks[n].permission), true);
          }
        }
      } else {
        ret := ModifyRule(MemberRule(n, i), true);
      }
      if ret != 0 {
        return;
      }
      mNetworks := WithIfaces(mNetworks, n, mNetworks[n].ifaces + {i});
    }

    /** `removeInterface` of the four kinds of network. */
    method RemoveIface(n: NetId, i: Iface) returns (ret: int)
      requires Valid() && Agrees() && n in mNetworks
      modifies this`rules, this`ok, this`refused, this`mNetworks
      ensures Valid() && Agrees() && (ok ==> old(ok))
      ensures mNetworks == if ret != 0 then old(mNetworks)
                           else WithIfaces(old(mNetworks), n, old(mNetworks)[n].ifaces - {i})
      ensures ok ==> (ret == 0 <==> !old(mNetworks)[n].Dummy?)
      ensures old(mNetworks)[n].Dummy? ==> ret == -EINVAL
    {
      if mNetworks[n].Dummy? {
        return -EINVAL;
      }
      if i !in mNetworks[n].ifaces {
        assert mNetworks[n].ifaces - {i} == mNetworks[n].ifaces;
        SameIfaces(mNetworks, n);
        return 0;
      }
      ghost var before := rules;
      ret := 0;
      if ok {
        IfaceRemoved(mNetworks, mDefaultNetId, n, i);
      }
      if mNetworks[n].Physical? {
        var p := mNetworks[n].permission;
        if mNetworks[n].isDefault {
          ret := ModifyDefault(i, p, false);
        }
        if ret == 0 {
          ghost var mid := rules;
          ret := ModifyRule(PhysicalRule(n, i, p), false);
          if ret == 0 && mNetworks[n].isDefault {
            ChangedTwice(before, mid, rules, DefaultBundle(Vpns(mNetworks), {i}, p), {PhysicalRule(n, i, p)}, false);
          }
        }
      } else {
        ret := ModifyRule(MemberRule(n, i), false);
      }
      if ret != 0 {
        return;
      }
      mNetworks := WithIfaces(mNetworks, n, mNetworks[n].ifaces - {i});
    }

    /** `Network::clearInterfaces`. */
    method ClearInterfaces(n: NetId) returns (ret: int)
      requires Valid() && Agrees() && n in mNetworks
      modifies this`rules, this`ok, this`refused, this`mNetworks
      ensures Valid() && Agrees() && (ok ==> old(ok))
      ensures n in mNetworks && mNetworks == WithIfaces(old(mNetworks), n, mNetworks[n].ifaces)
      ensures ret == 0 ==> mNetworks[n].ifaces == {}
      ensures ret == 0 ==> (old(mNetworks)[n].Dummy? ==> old(mNetworks)[n].ifaces == {})
      ensures ok && (old(mNetworks)[n].Dummy? ==> old(mNetworks)[n].ifaces == {}) ==> ret == 0
    {
      ret := 0;
      SameIfaces(mNetworks, n);
      while mNetworks[n].ifaces != {}
        invariant Valid() && Agrees() && (ok ==> old(ok)) && ret == 0
        invariant n in mNetworks && mNetworks == WithIfaces(old(mNetworks), n, mNetworks[n].ifaces)
        invariant old(mNetworks)[n].Dummy? ==> mNetworks[n].Dummy? && mNetworks[n].ifaces == old(mNetworks)[n].ifaces
        decreases mNetworks[n].ifaces
      {
        var i :| i in mNetworks[n].ifaces;
        ghost var ifaces := mNetworks[n].ifaces;
        ret := RemoveIface(n, i);
        if ret != 0 {
          return;
        }
        IfacesTwice(old(mNetworks), n, ifaces, ifaces - {i});
      }
    }

    // ----- the operations of the controller

    /** The first half of `setDefaultNetwork`: the new default network, if there is to be one. */
    method AddNewDefault(netId: NetId) returns (ret: int)
      requires Valid() && Agrees() && netId != mDefaultNetId
      modifies this`rules, this`ok, this`refused, this`mNetworks
      ensures (ok ==> old(ok) && refused == 0) && (ret != 0 ==> mNetworks == old(mNetworks) && Agrees())
      ensures ok ==> (ret == 0 <==> netId == NETID_UNSET || IsPhysical(old(mNetworks), netId))
      ensures ret == 0 && netId == NETID_UNSET ==> mNetworks == old(mNetworks) && rules == old(rules)
      ensures ret == 0 && netId != NETID_UNSET ==>
                && netId in old(mNetworks) && old(mNetworks)[netId].Physical?
                && mNetworks == Flagged(old(mNetworks), netId, true)
      ensures ret == 0 && ok && netId != NETID_UNSET ==>
                var net := old(mNetworks)[netId];
                Changed(old(rules), rules, DefaultBundle(Vpns(old(mNetworks)), net.ifaces, net.permission), true)
    {
      if netId == NETID_UNSET {
        return 0;
      }
      if netId !in mNetworks {
        return -ENONET;
      }
      if !mNetworks[netId].Physical? {
        return -EINVAL;
      }
      DefaultCanChange(mNetworks, mDefaultNetId, netId);
      ret := SetFlag(netId, true);
    }

    /** The second half: the old default network, if there was one. */
    method RemoveOldDefault() returns (ret: int)
      requires DefaultExists(mNetworks, mDefaultNetId) && (ok ==> refused == 0)
      requires ok && mDefaultNetId != NETID_UNSET ==>
                 var net := mNetworks[mDefaultNetId];
                 CanChange(rules, DefaultBundle(Vpns(mNetworks), net.ifaces, net.permission), false)
      modifies this`rules, this`ok, this`refused, this`mNetworks
      ensures (ok ==> old(ok) && refused == 0) && (ret != 0 ==> !ok && mNetworks == old(mNetworks))
      ensures ret == 0 && mDefaultNetId == NETID_UNSET ==> mNetworks == old(mNetworks) && rules == old(rules)
      ensures ret == 0 && mDefaultNetId != NETID_UNSET ==> mNetworks == Flagged(old(mNetworks), mDefaultNetId, false)
      ensures ret == 0 && mDefaultNetId != NETID_UNSET ==>
                var net := old(mNetworks)[mDefaultNetId];
                Changed(old(rules), rules, DefaultBundle(Vpns(old(mNetworks)), net.ifaces, net.permission), false)
    {
      if mDefaultNetId == NETID_UNSET {
        return 0;
      }
      if mDefaultNetId !in mNetworks || !mNetworks[mDefaultNetId].Physical? {
        return -ESRCH;
      }
      ret := SetFlag(mDefaultNetId, false);
    }

    /** `setDefaultNetwork`. */
    method SetDefaultNetwork(netId: NetId) returns (ret: int)
      requires Valid() && Agrees()
      modifies this
      ensures Valid() && Agrees() && (ok ==> old(ok))
      ensures mDefaultNetId == if ret == 0 then netId else old(mDefaultNetId)
      ensures mNetworks.Keys == old(mNetworks).Keys
      ensures ok ==> (ret == 0 <==> MayBeDefault(old(mNetworks), old(mDefaultNetId), netId))
      ensures ok ==> mNetworks == if ret == 0 then Retagged(old(mNetworks), netId) else old(mNetworks)
    {
      if netId == mDefaultNetId {
        if ok {
          RetaggedSame(mNetworks, netId);
        }
        return 0;
      }
      ghost var nets, d, before := mNetworks, mDefaultNetId, rules;
      ret := AddNewDefault(netId);
      if ret != 0 {
        return;
      }
      ghost var mid, nets1 := rules, mNetworks;
      NewFlagged(nets, d, netId, nets1, before, mid, ok);
      ret := RemoveOldDefault();
      if ret != 0 {
        return;
      }
      DefaultFlagged(nets, d, netId, nets1, mNetworks, before, mid, rules, ok);
      if ok {
        RetaggedBoth(nets, d, netId);
      }
      mDefaultNetId := netId;
    }

    /** `createPhysicalNetwork`. */
    method CreatePhysicalNetwork(netId: NetId, p: Permission) returns (ret: int)
      requires Valid() && Agrees()
      modifies this
      ensures Valid() && Agrees() && ok == old(ok) && rules == old(rules) && mDefaultNetId == old(mDefaultNetId)
      ensures ret == 0 <==> FreeForPhysical(old(mNetworks), netId)
      ensures mNetworks == if ret == 0 then old(mNetworks)[netId := Physical({}, p, false)] else old(mNetworks)
    {
      if !(MIN_NET_ID <= netId <= MAX_NET_ID || MIN_OEM_ID <= netId <= MAX_OEM_ID) {
        return -EINVAL;
      }
      if netId in mNetworks {
        return -EEXIST;
      }
      ghost var nets := mNetworks;
      mNetworks := mNetworks[netId := Physical({}, p, false)];
      SilentNetwork(mNetworks, mDefaultNetId, netId);
      assert mNetworks - {netId} == nets;
      ret := 0;
    }

    /** `createVirtualNetwork`. */
    method CreateVirtualNetwork(netId: NetId, hasDns: bool, secure: bool) returns (ret: int)
      requires Valid() && Agrees()
      modifies this
      ensures Valid() && Agrees() && (ok ==> old(ok)) && mDefaultNetId == old(mDefaultNetId)
      ensures mNetworks == if ret == 0 then old(mNetworks)[netId := Virtual({}, hasDns, secure)] else old(mNetworks)
      ensures ret == 0 ==> FreeForVirtual(old(mNetworks), netId)
      ensures ok ==> (ret == 0 <==> FreeForVirtual(old(mNetworks), netId))
    {
      if !(MIN_NET_ID <= netId <= MAX_NET_ID) {
        return -EINVAL;
      }
      if netId in mNetworks {
        return -EEXIST;
      }
      VpnAdded(mNetworks, mDefaultNetId, netId, hasDns, secure);
      ret := ModifyFallthroughLocked(netId, true);
      if ret != 0 {
        return;
      }
      mNetworks := mNetworks[netId := Virtual({}, hasDns, secure)];
    }

    /** `destroyNetwork`: failures are passed over, and the network goes in any case. */
    method DestroyNetwork(netId: NetId) returns (ret: int)
      requires Valid() && Agrees()
      modifies this
      ensures Valid() && Agrees() && (ok ==> old(ok))
      ensures mNetworks == if netId == LOCAL_NET_ID then old(mNetworks) else old(mNetworks) - {netId}
      ensures mDefaultNetId == if netId in mNetworks || netId != old(mDefaultNetId) then old(mDefaultNetId)
                               else NETID_UNSET
      ensures ret == 0 ==> Destroyable(old(mNetworks), netId)
      ensures ok ==> (ret == 0 <==> Destroyable(old(mNetworks), netId))
    {
      if netId == LOCAL_NET_ID {
        return -EINVAL;
      }
      if netId !in mNetworks {
        assert mNetworks - {netId} == mNetworks;
        return -ENONET;
      }
      ret := ClearInterfaces(netId);
      var err := DropEmpty(netId);
      ret := if ret == 0 then err else ret;
    }

    /** A network whose interfaces have been cleared, or could not be. */
    method DropEmpty(netId: NetId) returns (err: int)
      requires Valid() && Agrees() && netId in mNetworks && netId != LOCAL_NET_ID
      requires ok ==> mNetworks[netId].ifaces == {} || mNetworks[netId].Dummy?
      modifies this
      ensures Valid() && Agrees() && (ok ==> old(ok))
      ensures mNetworks == old(mNetworks) - {netId}
      ensures mDefaultNetId == if netId == old(mDefaultNetId) then NETID_UNSET else old(mDefaultNetId)
      ensures ok ==> err == 0
    {
      err := 0;
      ghost var nets := mNetworks;
      if mDefaultNetId == netId {
        if ok {
          EmptyDefaultDropped(nets, netId);
        }
        err := SetFlag(netId, false);
        mDefaultNetId := NETID_UNSET;
        assert mNetworks - {netId} == nets - {netId};
      } else if mNetworks[netId].Virtual? {
        if ok && mDefaultNetId != NETID_UNSET {
          VpnCanGo(nets, mDefaultNetId, netId);
        }
        err := ModifyFallthroughLocked(netId, false);
        if ok {
          VpnDropped(nets, mDefaultNetId, netId, rules);
        }
      } else if ok {
        SilentNetwork(nets, mDefaultNetId, netId);
      }
      mNetworks := mNetworks - {netId};
    }

    /** `getNetworkForInterface`: some network that has the interface, or none. */
    method GetNetworkForInterface(i: Iface) returns (netId: NetId)
      requires NETID_UNSET !in mNetworks
      ensures netId == NETID_UNSET ==> forall n :: n in mNetworks ==> i !in mNetworks[n].ifaces
      ensures netId != NETID_UNSET ==> netId in mNetworks && i in mNetworks[netId].ifaces
    {
      var todo := mNetworks.Keys;
      while todo != {}
        invariant todo <= mNetworks.Keys
        invariant forall n :: n in mNetworks && n !in todo ==> i !in mNetworks[n].ifaces
        decreases todo
      {
        var n :| n in todo;
        if i in mNetworks[n].ifaces {
          return n;
        }
        todo := todo - {n};
      }
      netId := NETID_UNSET;
    }

    /** `addInterfaceToNetwork`. */
    method AddInterfaceToNetwork(netId: NetId, i: Iface) returns (ret: int)
      requires Valid() && Agrees()
      modifies this
      ensures Valid() && Agrees() && (ok ==> old(ok)) && mDefaultNetId == old(mDefaultNetId)
      ensures ret == 0 ==> Addable(old(mNetworks), netId, i)
      ensures ok ==> (ret == 0 <==> Addable(old(mNetworks), netId, i))
      ensures mNetworks == if ret != 0 then old(mNetworks)
                           else WithIfaces(old(mNetworks), netId, old(mNetworks)[netId].ifaces + {i})
    {
      if netId !in mNetworks {
        return -ENONET;
      }
      var existing := GetNetworkForInterface(i);
      if existing != NETID_UNSET && existing != netId {
        return -EBUSY;
      }
      ret := AddIface(netId, i);
    }

    /** `removeInterfaceFromNetwork`. */
    method RemoveInterfaceFromNetwork(netId: NetId, i: Iface) returns (ret: int)
      requires Valid() && Agrees()
      modifies this
      ensures Valid() && Agrees() && (ok ==> old(ok)) && mDefaultNetId == old(mDefaultNetId)
      ensures ret == 0 ==> Removable(old(mNetworks), netId)
      ensures ok ==> (ret == 0 <==> Removable(old(mNetworks), netId))
      ensures mNetworks == if ret != 0 then old(mNetworks)
                           else WithIfaces(old(mNetworks), netId, old(mNetworks)[netId].ifaces - {i})
    {
      if netId !in mNetworks {
        return -ENONET;
      }
      ret := RemoveIface(netId, i);
    }

    /** `setPermissionForNetworks`: stops at the first network that cannot take the permission. */
    method SetPermissionForNetworks(p: Permission, netIds: seq<NetId>) returns (ret: int)
      requires Valid() && Agrees()
      modifies this
      ensures Valid() && Agrees() && (ok ==> old(ok)) && mDefaultNetId == old(mDefaultNetId)
      ensures ret == 0 ==> AllPhysical(old(mNetworks), netIds) && mNetworks == Permitted(old(mNetworks), p, netIds)
      ensures ok ==> (ret == 0 <==> AllPhysical(old(mNetworks), netIds))
      ensures ok ==> mNetworks == Permitted(old(mNetworks), p, Served(old(mNetworks), netIds))
    {
      ghost var nets := mNetworks;
      PermittedNone(nets, p);
      ServedAll(nets, netIds);
      for j := 0 to |netIds|
        invariant Valid() && Agrees() && (ok ==> old(ok)) && mDefaultNetId == old(mDefaultNetId)
        invariant UpTo(nets, p, netIds, j)
      {
        ret := PermitOne(nets, p, netIds, j);
        if ret != 0 {
          return;
        }
      }
      assert netIds[..|netIds|] == netIds;
      ret := 0;
    }

    /** The first `j` networks of the list are physical and have the permission. */
    ghost predicate UpTo(nets: Networks, p: Permission, netIds: seq<NetId>, j: nat)
      requires j <= |netIds|
      reads this
    {
      AllPhysical(nets, netIds[..j]) && mNetworks == Permitted(nets, p, netIds[..j])
    }

    /** One turn of the loop. */
    method PermitOne(ghost nets: Networks, p: Permission, netIds: seq<NetId>, j: nat) returns (ret: int)
      requires Valid() && Agrees() && j < |netIds| && UpTo(nets, p, netIds, j)
      modifies this`rules, this`ok, this`refused, this`mNetworks
      ensures Valid() && Agrees() && (ok ==> old(ok))
      ensures ret == 0 ==> UpTo(nets, p, netIds, j + 1)
      ensures ok && ret != 0 ==>
                && !AllPhysical(nets, netIds) && mNetworks == Permitted(nets, p, Served(nets, netIds))
    {
      var n := netIds[j];
      if n !in mNetworks || !mNetworks[n].Physical? {
        ServedUpTo(nets, netIds, j);
        return if n !in mNetworks then -ENONET else -EINVAL;
      }
      PermittedNext(nets, p, netIds, j);
      ret := SetPermission(n, p);
      assert netIds[..j + 1] == netIds[..j] + [n];
    }

    /** The networks and the default network. */
    ghost function Contents(): Table
      reads this
    {
      Table(mNetworks, mDefaultNetId)
    }
  }

  method Perform(c: NetworkController, op: Operation) returns (ret: int)
    requires c.Valid() && c.Agrees()
    modifies c
    ensures c.Valid() && c.Agrees() && (c.ok ==> old(c.ok))
    ensures c.ok ==> (ret == 0 <==> Accepts(old(c.Contents()), op)) && c.Contents() == Performed(old(c.Contents()), op)
  {
    match op
    case SetDefault(n) => ret := c.SetDefaultNetwork(n);
    case CreatePhysical(n, p) => ret := c.CreatePhysicalNetwork(n, p);
    case CreateVirtual(n, hasDns, secure) => ret := c.CreateVirtualNetwork(n, hasDns, secure);
    case Destroy(n) => ret := c.DestroyNetwork(n);
    case AddInterface(n, i) => ret := c.AddInterfaceToNetwork(n, i);
    case RemoveInterface(n, i) => ret := c.RemoveInterfaceFromNetwork(n, i);
    case SetPermissions(p, ns) => ret := c.SetPermissionForNetworks(p, ns);
  }

  /**
   * After any run of operations from the start: every interface is in at most one network and the default
   * network is sound; and if no kernel call failed of itself, none was refused (no rule was added twice or deleted
   * without being there), the default rules are exactly one per interface of the default network, at its current
   * permission, the fallthrough rules one per pair of a VPN with those, and the rules of the interfaces themselves one
   * per interface; the operations that succeeded and the networks there are then are those of the replay.
   */
  method RunOperations(ops: seq<Operation>) returns (c: NetworkController, replies: seq<int>)
    ensures |replies| == |ops| && (c.ok ==> c.Contents() == Replay(ops))
    ensures c.ok ==> forall k: nat :: k < |ops| ==> (replies[k] == 0 <==> Succeeds(ops, k))
    ensures OwnedOnce(c.mNetworks) && DefaultExists(c.mNetworks, c.mDefaultNetId)
    ensures c.ok ==> c.refused == 0
    ensures c.ok ==> forall i, p :: DefaultRule(i, p) in c.rules <==>
              c.mDefaultNetId in c.mNetworks && i in c.mNetworks[c.mDefaultNetId].ifaces
              && c.mNetworks[c.mDefaultNetId].Physical? && p == c.mNetworks[c.mDefaultNetId].permission
    ensures c.ok ==> forall v, i, p :: FallthroughRule(v, i, p) in c.rules <==>
              v in c.mNetworks && c.mNetworks[v].Virtual? && DefaultRule(i, p) in c.rules
    ensures c.ok ==> forall n, i, p :: PhysicalRule(n, i, p) in c.rules <==>
              IsPhysical(c.mNetworks, n) && i in c.mNetworks[n].ifaces && p == c.mNetworks[n].permission
    ensures c.ok ==> forall n, i :: MemberRule(n, i) in c.rules <==>
              n in c.mNetworks && (c.mNetworks[n].Local? || c.mNetworks[n].Virtual?) && i in c.mNetworks[n].ifaces
  {
    c := new NetworkController();
    replies := [];
    assert ops[..0] == [];
    for k := 0 to |ops|
      invariant c.Valid() && c.Agrees() && fresh(c) && |replies| == k
      invariant c.ok ==> c.Contents() == Replay(ops[..k])
      invariant c.ok ==> forall j: nat :: j < k ==> (replies[j] == 0 <==> Succeeds(ops, j))
    {
      ReplayNext(ops, k);
      var ret := Perform(c, ops[k]);
      replies := replies + [ret];
    }
    assert ops[..|ops|] == ops;
    forall r ensures c.ok ==> (r in c.rules <==> Wanted(c.mNetworks, c.mDefaultNetId, r)) {
      ExpectedIs(c.mNetworks, c.mDefaultNetId, r);
    }
  }
}
