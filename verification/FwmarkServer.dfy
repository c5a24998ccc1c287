/** `FwmarkServer`: the mark of one socket under the commands of its clients. */
module FwmarkModel {
  import opened Common
  import opened Bits
  import opened NetworkModel

  type Uid = nat

  const PERMISSION_NONE: nat := 0
  const PERMISSION_SYSTEM: nat := 3
  const FIRST_APPLICATION_UID := 10000
  const INVALID_UID: Uid := 0xffff_ffff

  const EPERM := 1
  const EACCES := 13
  const EPROTO := 71
  const EREMOTEIO := 121

  // ----- the mark as 32 bits

  type PermissionBits = x: int | 0 <= x < 4

  /** The fields of `union Fwmark`, with the bits above them. */
  datatype Fwmark = Fwmark(netId: nat, explicit: bool, protect: bool, permission: PermissionBits, upper: nat)

  predicate WellFormed(m: Fwmark) {
    m.netId < 0x1_0000 && m.upper < 0x1000
  }

  function Bit(b: bool): nat {
    if b then 1 else 0
  }

  /** 16 bits of network id, the two flags, two bits of permission and the rest. */
  function Pack(m: Fwmark): nat {
    m.netId + 0x1_0000 * (Bit(m.explicit) + 2 * (Bit(m.protect) + 2 * (m.permission + 4 * m.upper)))
  }

  function Unpack(x: nat): (m: Fwmark)
    requires x < 0x1_0000_0000
    ensures WellFormed(m)
  {
    var a := x / 0x1_0000;
    var b := a / 2;
    var c := b / 2;
    Fwmark(x % 0x1_0000, a % 2 == 1, b % 2 == 1, c % 4, c / 4)
  }

  /** `setsockopt` and `getsockopt` carry the fields unchanged. */
  lemma {:induction false} PackRoundTrip(m: Fwmark)
    requires WellFormed(m)
    ensures Pack(m) < 0x1_0000_0000 && Unpack(Pack(m)) == m
  {
    var c := m.permission + 4 * m.upper;
    var b := Bit(m.protect) + 2 * c;
    var a := Bit(m.explicit) + 2 * b;
    assert a / 2 == b && b / 2 == c && c / 4 == m.upper;
    DivModUnique(Pack(m), 0x1_0000, a, m.netId);
  }

  /** The union of two sets of permission bits. */
  function OrBits(a: PermissionBits, b: PermissionBits): PermissionBits {
    Bit(a % 2 == 1 || b % 2 == 1) + 2 * Bit(a / 2 == 1 || b / 2 == 1)
  }

  // ----- what the network controller answers

  /**
   * The state of the controller when a command is processed. `stray` is what the access check reads in place of a
   * permission from networks that are not physical.
   */
  datatype View = View(nets: Networks, default: NetId, members: set<(NetId, Uid)>,
                       users: map<Uid, PermissionBits>, protectable: set<Uid>, stray: map<NetId, PermissionBits>)

  ghost predicate ValidView(v: View) {
    IdsInRange(v.nets) && DefaultExists(v.nets, v.default)
  }

  predicate IsVirtual(v: View, n: NetId) {
    n in v.nets && v.nets[n].Virtual?
  }

  predicate IsSecure(v: View, n: NetId) {
    n in v.nets && v.nets[n].Virtual? && v.nets[n].secure
  }

  /** `vpn` is a VPN that applies to the user, or none does. */
  ghost predicate VpnOf(v: View, uid: Uid, vpn: Option<NetId>) {
    match vpn
    case Some(n) => IsVirtual(v, n) && (n, uid) in v.members
    case None => forall n: NetId :: IsVirtual(v, n) ==> (n, uid) !in v.members
  }

  function UserPermission(v: View, uid: Uid): PermissionBits {
    if uid in v.users then v.users[uid]
    else if uid < FIRST_APPLICATION_UID then PERMISSION_SYSTEM else PERMISSION_NONE
  }

  predicate CanProtect(v: View, uid: Uid) {
    UserPermission(v, uid) == PERMISSION_SYSTEM || uid in v.protectable
  }

  function NetworkForUser(v: View, vpn: Option<NetId>): NetId {
    if vpn.Some? then vpn.value else v.default
  }

  function NetworkForConnect(v: View, vpn: Option<NetId>): NetId {
    if vpn.Some? && !IsSecure(v, vpn.value) then vpn.value else v.default
  }

  function NetworkPermission(v: View, n: NetId): PermissionBits
    requires n in v.nets
  {
    match v.nets[n]
    case Physical(_, PermNetwork, _) => 1
    case Physical(_, PermSystem, _) => 3
    case Physical(_, _, _) => 0
    case _ => if n in v.stray then v.stray[n] else 0
  }

  /** `checkUserNetworkAccessLocked`, given the VPN that applies to the user. */
  function CheckAccess(v: View, uid: Uid, n: NetId, vpn: Option<NetId>): int {
    if n !in v.nets then -ENONET
    else if uid == INVALID_UID then -EREMOTEIO
    else if UserPermission(v, uid) == PERMISSION_SYSTEM then 0
    else if v.nets[n].Virtual? then if (n, uid) in v.members then 0 else -EPERM
    else if vpn.Some? && IsSecure(v, vpn.value) && uid !in v.protectable then -EPERM
    else
      var need := NetworkPermission(v, n);
      if OrBits(UserPermission(v, uid), need) == UserPermission(v, uid) then 0 else -EACCES
  }

  // ----- commands

  datatype Command =
    | OnAccept
    | OnConnect
    | SelectNetwork(netId: nat)
    | ProtectFromVpn
    | SelectForUser(uid: Uid)
    | Unknown

  /** How a socket came by its network id. */
  datatype Origin = Initial | Connected | Selected | Protected | ForUser

  datatype Socket = Socket(mark: Fwmark, origin: Origin)

  const NEW_SOCKET := Socket(Fwmark(0, false, false, 0, 0), Initial)

  datatype Reply = Reply(error: int, socket: Socket)

  /**
   * The command switch of `processClient`, for the user `uid`, up to writing the mark back. `vpn` and `vpnFor`
   * are the VPNs of that user and of the user named in the command. A failing command leaves the mark alone.
   */
  function Process(v: View, uid: Uid, cmd: Command, vpn: Option<NetId>, vpnFor: Option<NetId>, s: Socket): Reply {
    var m, p := s.mark, UserPermission(v, uid);
    match cmd
    case OnAccept => Reply(0, s.(mark := m.(permission := OrBits(p, m.permission))))
    case OnConnect =>
      if m.explicit then Reply(0, s.(mark := m.(permission := p)))
      else if !m.protect then
        Reply(0, Socket(m.(netId := NetworkForConnect(v, vpn) % 0x1_0000, permission := p), Connected))
      else if !IsVirtual(v, m.netId) then
        Reply(0, Socket(m.(netId := v.default % 0x1_0000, permission := p), Connected))
      else Reply(0, s.(mark := m.(permission := p)))
    case SelectNetwork(n) =>
      if n == NETID_UNSET then
        Reply(0, Socket(m.(netId := 0, explicit := false, protect := false, permission := PERMISSION_NONE), Selected))
      else if CheckAccess(v, uid, n, vpn) != 0 then Reply(CheckAccess(v, uid, n, vpn), s)
      else
        var m' := m.(netId := n % 0x1_0000, explicit := true, protect := CanProtect(v, uid), permission := p);
        Reply(0, Socket(m', Selected))
    case ProtectFromVpn =>
      if !CanProtect(v, uid) then Reply(-EPERM, s)
      else if !m.explicit && IsVirtual(v, m.netId) then
        var m' := m.(netId := v.default % 0x1_0000, protect := true, permission := OrBits(p, m.permission));
        Reply(0, Socket(m', Protected))
      else Reply(0, s.(mark := m.(protect := true, permission := OrBits(p, m.permission))))
    case SelectForUser(_) =>
      if p != PERMISSION_SYSTEM then Reply(-EPERM, s)
      else
        var m' := m.(netId := NetworkForUser(v, vpnFor) % 0x1_0000, protect := true, permission := p);
        Reply(0, Socket(m', ForUser))
    case Unknown => Reply(-EPROTO, s)
  }

  /** The switch keeps marks well-formed and does not look at the origin, which the code does not have. */
  lemma {:induction false} OriginIsGhost(v: View, uid: Uid, cmd: Command, vpn: Option<NetId>, vpnFor: Option<NetId>,
                                         m: Fwmark, o: Origin, o': Origin)
    requires WellFormed(m)
    ensures var r := Process(v, uid, cmd, vpn, vpnFor, Socket(m, o));
            var r' := Process(v, uid, cmd, vpn, vpnFor, Socket(m, o'));
            r.error == r'.error && r.socket.mark == r'.socket.mark && WellFormed(r.socket.mark)
  {}

  /** `getVirtualNetworkForUserLocked`. */
  method FindVpn(v: View, uid: Uid) returns (vpn: Option<NetId>)
    ensures VpnOf(v, uid, vpn)
  {
    var todo := v.nets.Keys;
    while todo != {}
      invariant todo <= v.nets.Keys
      invariant forall n: NetId :: IsVirtual(v, n) && n !in todo ==> (n, uid) !in v.members
      decreases todo
    {
      var n :| n in todo;
      if v.nets[n].Virtual? && (n, uid) in v.members {
        return Some(n);
      }
      todo := todo - {n};
    }
    vpn := None;
  }

  // ----- what each command does to the 32 bits

  /** The bits of a mark: 16 of network id, two flags, two of permission, and the rest. */
  datatype Bits32 = Bits32(id: nat, explicit: bool, protect: bool, network: bool, system: bool, above: nat)

  function BitsOf(mark: nat): Bits32 {
    Bits32(mark % 0x1_0000, mark / 0x1_0000 % 2 == 1, mark / 0x2_0000 % 2 == 1, mark / 0x4_0000 % 2 == 1,
           mark / 0x8_0000 % 2 == 1, mark / 0x10_0000)
  }

  function BitsIn(m: Fwmark): Bits32 {
    Bits32(m.netId, m.explicit, m.protect, m.permission % 2 == 1, m.permission / 2 == 1, m.upper)
  }

  lemma {:induction false} BitsOfMark(mark: nat)
    requires mark < 0x1_0000_0000
    ensures BitsOf(mark) == BitsIn(Unpack(mark))
  {
    var a := mark / 0x1_0000;
    Shifts(mark, a);
    LowBits(a / 4);
  }

  lemma {:induction false} Shifts(mark: nat, a: nat)
    requires a == mark / 0x1_0000
    ensures mark / 0x2_0000 == a / 2 && mark / 0x4_0000 == a / 2 / 2 == a / 4
    ensures mark / 0x8_0000 == a / 4 / 2 && mark / 0x10_0000 == a / 4 / 4
  {}

  lemma {:induction false} LowBits(c: nat)
    ensures c % 4 % 2 == c % 2 && c % 4 / 2 == c / 2 % 2
  {}

  /** The permission bits that a user has: those that were set for the user, or all for a system user. */
  predicate UserHasNetworkBit(v: View, uid: Uid) {
    if uid in v.users then v.users[uid] == 1 || v.users[uid] == 3 else uid < FIRST_APPLICATION_UID
  }

  predicate UserHasSystemBit(v: View, uid: Uid) {
    if uid in v.users then v.users[uid] >= 2 else uid < FIRST_APPLICATION_UID
  }

  predicate HasAll(v: View, uid: Uid) {
    UserHasNetworkBit(v, uid) && UserHasSystemBit(v, uid)
  }

  predicate MayProtect(v: View, uid: Uid) {
    HasAll(v, uid) || uid in v.protectable
  }

  /** The user has every permission bit that the network asks for. */
  ghost predicate Covers(v: View, uid: Uid, n: NetId)
    requires n in v.nets
  {
    match v.nets[n]
    case Physical(_, p, _) =>
      p == PermNone || (p == PermNetwork && UserHasNetworkBit(v, uid)) || HasAll(v, uid)
    case _ =>
      var asked := if n in v.stray then v.stray[n] else 0;
      && (asked == 1 || asked == 3 ==> UserHasNetworkBit(v, uid))
      && (asked >= 2 ==> UserHasSystemBit(v, uid))
  }

  /** A secure VPN keeps the user, who may not bypass it, from other networks. */
  ghost predicate Confined(v: View, uid: Uid, vpn: Option<NetId>) {
    vpn.Some? && IsSecure(v, vpn.value) && uid !in v.protectable
  }

  /** Who may use a network. */
  ghost predicate MayUse(v: View, uid: Uid, n: NetId, vpn: Option<NetId>) {
    && n in v.nets && uid != INVALID_UID
    && (HasAll(v, uid) ||
        if v.nets[n].Virtual? then (n, uid) in v.members else !Confined(v, uid, vpn) && Covers(v, uid, n))
  }

  /** System permission, membership of a VPN, or enough permission and no secure VPN in the way. */
  lemma {:induction false} AccessExact(v: View, uid: Uid, n: NetId, vpn: Option<NetId>)
    ensures CheckAccess(v, uid, n, vpn) == 0 <==> MayUse(v, uid, n, vpn)
    ensures CheckAccess(v, uid, n, vpn) ==
            if MayUse(v, uid, n, vpn) then 0
            else if n !in v.nets then -ENONET
            else if uid == INVALID_UID then -EREMOTEIO
            else if v.nets[n].Virtual? || Confined(v, uid, vpn) then -EPERM
            else -EACCES
  {}

  /** The mark carries the permission bits of the user. */
  predicate CarriesUser(v: View, uid: Uid, x: Bits32) {
    x.network == UserHasNetworkBit(v, uid) && x.system == UserHasSystemBit(v, uid)
  }

  /** The permission bits of the user have been added to those that were there. */
  predicate AddsUser(v: View, uid: Uid, x: Bits32, y: Bits32) {
    && y.network == (x.network || UserHasNetworkBit(v, uid))
    && y.system == (x.system || UserHasSystemBit(v, uid))
  }

  /** The VPN if there is one, and otherwise the default network. */
  function Chosen(v: View, vpn: Option<NetId>): nat {
    (match vpn case Some(n) => n case None => v.default) % 0x1_0000
  }

  /** What a command answers, and what it does to the bits of the mark. */
  ghost predicate Served(v: View, uid: Uid, cmd: Command, vpn: Option<NetId>, vpnFor: Option<NetId>, x: Bits32,
                         error: int, y: Bits32)
  {
    && (error != 0 ==> y == x) && y.above == x.above
    && match cmd
       case OnAccept =>
         error == 0 && y.id == x.id && y.explicit == x.explicit && y.protect == x.protect && AddsUser(v, uid, x, y)
       case OnConnect =>
         && error == 0 && y.explicit == x.explicit && y.protect == x.protect && CarriesUser(v, uid, y)
         && y.id == if x.explicit || (x.protect && IsVirtual(v, x.id)) then x.id
                    else if x.protect then Chosen(v, None)
                    else Chosen(v, if vpn.Some? && IsSecure(v, vpn.value) then None else vpn)
       case SelectNetwork(n) =>
         if n == NETID_UNSET then error == 0 && y == Bits32(0, false, false, false, false, x.above)
         else
           && (error == 0 <==> MayUse(v, uid, n, vpn))
           && (error == 0 ==>
                 y.id == n % 0x1_0000 && y.explicit && y.protect == MayProtect(v, uid) && CarriesUser(v, uid, y))
       case ProtectFromVpn =>
         && error == (if MayProtect(v, uid) then 0 else -EPERM)
         && (error == 0 ==>
               && y.protect && y.explicit == x.explicit && AddsUser(v, uid, x, y)
               && y.id == if !x.explicit && IsVirtual(v, x.id) then Chosen(v, None) else x.id)
       case SelectForUser(_) =>
         && error == (if HasAll(v, uid) then 0 else -EPERM)
         && (error == 0 ==>
               y.protect && y.explicit == x.explicit && CarriesUser(v, uid, y) && y.id == Chosen(v, vpnFor))
       case Unknown => error == -EPROTO
  }

  lemma {:induction false} ProcessServes(v: View, uid: Uid, cmd: Command, vpn: Option<NetId>, vpnFor: Option<NetId>,
                                         s: Socket)
    ensures var r := Process(v, uid, cmd, vpn, vpnFor, s);
            Served(v, uid, cmd, vpn, vpnFor, BitsIn(s.mark), r.error, BitsIn(r.socket.mark))
  {
    UserBits(v, uid);
    UnionBits(UserPermission(v, uid), s.mark.permission);
    if cmd.SelectNetwork? {
      AccessExact(v, uid, cmd.netId, vpn);
    }
  }

  lemma {:induction false} UserBits(v: View, uid: Uid)
    ensures var p := UserPermission(v, uid);
            && p % 2 == Bit(UserHasNetworkBit(v, uid)) && p / 2 == Bit(UserHasSystemBit(v, uid))
            && (p == PERMISSION_SYSTEM <==> HasAll(v, uid)) && CanProtect(v, uid) == MayProtect(v, uid)
  {}

  lemma {:induction false} UnionBits(p: PermissionBits, q: PermissionBits)
    ensures var r := OrBits(p, q);
            && (r % 2 == 1 <==> p % 2 == 1 || q % 2 == 1) && (r / 2 == 1 <==> p / 2 == 1 || q / 2 == 1)
  {}

  /** `processClient` from `getsockopt` to `setsockopt`: reads, changes and writes the 32-bit mark. */
  method ProcessClient(v: View, uid: Uid, cmd: Command, mark: nat, ghost origin: Origin)
    returns (error: int, mark': nat, ghost vpn: Option<NetId>, ghost vpnFor: Option<NetId>)
    requires mark < 0x1_0000_0000
    ensures VpnOf(v, uid, vpn) && VpnOf(v, if cmd.SelectForUser? then cmd.uid else uid, vpnFor)
    ensures mark' < 0x1_0000_0000 && (error != 0 ==> mark' == mark)
    ensures var r := Process(v, uid, cmd, vpn, vpnFor, Socket(Unpack(mark), origin));
            error == r.error && Unpack(mark') == r.socket.mark
    ensures Served(v, uid, cmd, vpn, vpnFor, BitsOf(mark), error, BitsOf(mark'))
  {
    var own := FindVpn(v, uid);
    var other := FindVpn(v, if cmd.SelectForUser? then cmd.uid else uid);
    vpn, vpnFor := own, other;
    var r := Process(v, uid, cmd, own, other, Socket(Unpack(mark), Initial));
    OriginIsGhost(v, uid, cmd, own, other, Unpack(mark), Initial, origin);
    error, mark' := r.error, mark;
    if r.error == 0 {
      PackRoundTrip(r.socket.mark);
      mark' := Pack(r.socket.mark);
    }
    ProcessServes(v, uid, cmd, own, other, Socket(Unpack(mark), Initial));
    BitsOfMark(mark);
    BitsOfMark(mark');
  }

  // ----- the invariant that the comments of ON_CONNECT rely on

  /**
   * A socket that is protected, was not explicitly bound and carries the id of a VPN belongs to a proxy: its id
   * came from SELECT_FOR_USER.
   */
  ghost predicate ProxyInv(v: View, s: Socket) {
    s.mark.protect && !s.mark.explicit && IsVirtual(v, s.mark.netId) ==> s.origin == ForUser
  }

  lemma {:induction false} DefaultIsNotVirtual(v: View)
    requires ValidView(v)
    ensures v.default < 0x1_0000 && !IsVirtual(v, v.default)
  {}

  /** One processed command: what the controller was then, who asked for what, and the VPNs that were found. */
  datatype Turn = Turn(view: View, uid: Uid, cmd: Command, vpn: Option<NetId>, vpnFor: Option<NetId>)

  ghost predicate TurnOk(t: Turn) {
    && ValidView(t.view) && VpnOf(t.view, t.uid, t.vpn)
    && VpnOf(t.view, if t.cmd.SelectForUser? then t.cmd.uid else t.uid, t.vpnFor)
  }

  function After(turns: seq<Turn>): Socket {
    if turns == [] then NEW_SOCKET
    else
      var t := turns[|turns| - 1];
      Process(t.view, t.uid, t.cmd, t.vpn, t.vpnFor, After(turns[..|turns| - 1])).socket
  }

  lemma {:induction false} AfterNext(turns: seq<Turn>, t: Turn)
    ensures After(turns + [t]) == Process(t.view, t.uid, t.cmd, t.vpn, t.vpnFor, After(turns)).socket
  {
    assert (turns + [t])[..|turns|] == turns;
  }

  // ----- exactly when the invariant holds

  /** Commands that leave a protected, implicit VPN id where it is: two that never touch it, and refused ones. */
  ghost predicate Passive(t: Turn, s: Socket) {
    t.cmd.OnAccept? || t.cmd.OnConnect? || Process(t.view, t.uid, t.cmd, t.vpn, t.vpnFor, s).error != 0
  }

  /** Under one controller state no command breaks the invariant, and only a passive one fails to restore it. */
  lemma {:induction false} BrokenStaysBroken(t: Turn, s: Socket)
    requires ValidView(t.view)
    ensures ProxyInv(t.view, Process(t.view, t.uid, t.cmd, t.vpn, t.vpnFor, s).socket) <==>
              ProxyInv(t.view, s) || !Passive(t, s)
  {
    DefaultIsNotVirtual(t.view);
  }

  /** A socket that would break the invariant if its id were that of a VPN. */
  predicate Exposed(s: Socket) {
    s.mark.protect && !s.mark.explicit && s.origin != ForUser
  }

  lemma {:induction false} PassiveKeeps(t: Turn, s: Socket)
    requires Exposed(s) && IsVirtual(t.view, s.mark.netId) && Passive(t, s)
    ensures var s' := Process(t.view, t.uid, t.cmd, t.vpn, t.vpnFor, s).socket;
            Exposed(s') && s'.mark.netId == s.mark.netId
  {}

  ghost predicate TurnsOk(turns: seq<Turn>) {
    forall k :: 0 <= k < |turns| ==> TurnOk(turns[k])
  }

  /** At turn `j` the id `n` is that of a VPN, and the command is passive. */
  ghost predicate LeftAlone(turns: seq<Turn>, j: nat, n: nat)
    requires j < |turns|
  {
    IsVirtual(turns[j].view, n) && Passive(turns[j], After(turns[..j]))
  }

  ghost predicate Untouched(turns: seq<Turn>, k: nat, n: nat) {
    forall j: nat :: k <= j < |turns| ==> LeftAlone(turns, j, n)
  }

  ghost predicate CarriesAt(turns: seq<Turn>, j: nat, n: nat, s: Seal)
    requires j <= |turns|
  {
    Exposed(After(turns[..j])) && After(turns[..j]).mark.netId == n
  }

  /** After `j` turns the socket is exposed and carries the id `n`. */
  ghost predicate Carries(turns: seq<Turn>, j: nat, n: nat) {
    j <= |turns| && forall s: Seal :: CarriesAt(turns, j, n, s)
  }

  /** At turn `k` the id of an exposed socket has turned into that of a VPN, and nothing has touched it since. */
  ghost predicate TurnedAt(turns: seq<Turn>, k: nat) {
    && 0 < k < |turns|
    && Exposed(After(turns[..k]))
    && !IsVirtual(turns[k - 1].view, After(turns[..k]).mark.netId)
    && Untouched(turns, k, After(turns[..k]).mark.netId)
  }

  lemma {:induction false} AfterPrefix(turns: seq<Turn>, j: nat)
    requires j < |turns|
    ensures After(turns[..j + 1]) ==
            Process(turns[j].view, turns[j].uid, turns[j].cmd, turns[j].vpn, turns[j].vpnFor, After(turns[..j])).socket
  {
    assert turns[..j + 1] == turns[..j] + [turns[j]];
    AfterNext(turns[..j], turns[j]);
  }

  lemma {:induction false} StaysExposed(turns: seq<Turn>, k: nat, n: nat, j: nat)
    requires TurnsOk(turns) && Carries(turns, k, n) && Untouched(turns, k, n) && k <= j <= |turns|
    ensures Carries(turns, j, n)
    decreases j
  {
    if k < j {
      StaysExposed(turns, k, n, j - 1);
      assert LeftAlone(turns, j - 1, n);
      ExposedStep(turns, j - 1, n);
    }
  }

  lemma {:induction false} ExposedStep(turns: seq<Turn>, j: nat, n: nat)
    requires j < |turns| && TurnOk(turns[j]) && LeftAlone(turns, j, n) && Carries(turns, j, n)
    ensures Carries(turns, j + 1, n)
  {
    assert CarriesAt(turns, j, n, Seal);
    PassiveKeeps(turns[j], After(turns[..j]));
    AfterPrefix(turns, j);
  }

  /** A socket that is untouched since turn `k` of the run before is so in the longer run. */
  lemma {:induction false} TurnedEarlier(turns: seq<Turn>, k: nat)
    requires TurnsOk(turns) && turns != [] && TurnedAt(turns[..|turns| - 1], k)
    requires Passive(turns[|turns| - 1], After(turns[..|turns| - 1]))
    requires IsVirtual(turns[|turns| - 1].view, After(turns[..|turns| - 1]).mark.netId)
    ensures TurnedAt(turns, k)
  {
    var n := |turns| - 1;
    var before, id := turns[..n], After(turns[..k]).mark.netId;
    assert before[..k] == turns[..k] && before[..n] == before;
    StaysExposed(before, k, id, n);
    assert CarriesAt(before, n, id, Seal);
    forall j: nat | k <= j < |turns| ensures LeftAlone(turns, j, id) {
      if j < n {
        UntouchedAt(turns, n, k, id, j);
      }
    }
  }

  lemma {:induction false} UntouchedAt(turns: seq<Turn>, n: nat, k: nat, id: nat, j: nat)
    requires n < |turns| && Untouched(turns[..n], k, id) && k <= j < n
    ensures LeftAlone(turns, j, id)
  {
    assert LeftAlone(turns[..n], j, id);
    assert turns[..n][..j] == turns[..j] && turns[..n][j] == turns[j];
  }

  lemma {:induction false} BrokenTurned(turns: seq<Turn>)
    requires TurnsOk(turns) && turns != [] && !ProxyInv(turns[|turns| - 1].view, After(turns))
    ensures exists k: nat :: TurnedAt(turns, k)
  {
    var n := |turns| - 1;
    var t, s := turns[n], After(turns[..n]);
    assert turns[..n + 1] == turns;
    AfterPrefix(turns, n);
    BrokenStaysBroken(t, s);
    assert n > 0 by {
      assert turns[..0] == [];
    }
    if IsVirtual(turns[n - 1].view, s.mark.netId) {
      BrokenTurned(turns[..n]);
      var k :| TurnedAt(turns[..n], k);
      TurnedEarlier(turns, k);
    } else {
      assert LeftAlone(turns, n, s.mark.netId);
      assert TurnedAt(turns, n);
    }
  }

  /**
   * From mark 0, after any sequence of commands, a socket that is protected, not explicitly selected and carries
   * the id of a VPN got that id from SELECT_FOR_USER, unless the id of such a socket turned from a non-virtual to a
   * virtual one between two commands and every command since then was ON_ACCEPT, ON_CONNECT or refused.
   */
  lemma {:induction false} ProxyInvariantExact(turns: seq<Turn>)
    requires turns != [] && TurnsOk(turns)
    ensures ProxyInv(turns[|turns| - 1].view, After(turns)) <==> !exists k: nat :: TurnedAt(turns, k)
  {
    if k: nat :| TurnedAt(turns, k) {
      var n := After(turns[..k]).mark.netId;
      StaysExposed(turns, k, n, |turns|);
      assert CarriesAt(turns, |turns|, n, Seal) && LeftAlone(turns, |turns| - 1, n);
      assert turns[..|turns|] == turns;
    } else if !ProxyInv(turns[|turns| - 1].view, After(turns)) {
      BrokenTurned(turns);
    }
  }

  /** Between one command and the next, the id that the socket carries does not become that of a VPN. */
  ghost predicate StaysNonVirtual(turns: seq<Turn>) {
    forall k :: 0 < k < |turns| ==>
      var n := After(turns[..k]).mark.netId;
      IsVirtual(turns[k].view, n) ==> IsVirtual(turns[k - 1].view, n)
  }

  /** In particular the invariant holds when no carried id turns from a non-virtual to a virtual one. */
  lemma {:induction false} ProxySocketsComeFromSelectForUser(turns: seq<Turn>)
    requires turns != [] && TurnsOk(turns) && StaysNonVirtual(turns)
    ensures var s := After(turns);
            var v := turns[|turns| - 1].view;
            s.mark.protect && !s.mark.explicit && IsVirtual(v, s.mark.netId) ==> s.origin == ForUser
  {
    ProxyInvariantExact(turns);
    forall k: nat ensures !TurnedAt(turns, k) {
      if 0 < k < |turns| {
        var n := After(turns[..k]).mark.netId;
        assert LeftAlone(turns, k, n) ==> IsVirtual(turns[k].view, n);
      }
    }
  }

  /** A command sent to the server, and the state of the controller when it arrives. */
  datatype Request = Request(view: View, uid: Uid, cmd: Command)

  /** `turns` are the requests with the VPNs that were found for them. */
  ghost predicate Answers(turns: seq<Turn>, requests: seq<Request>) {
    && |turns| == |requests| && TurnsOk(turns)
    && forall k :: 0 <= k < |turns| ==>
         turns[k].view == requests[k].view && turns[k].uid == requests[k].uid && turns[k].cmd == requests[k].cmd
  }

  method ServeRequest(q: Request, mark: nat, ghost origin: Origin, ghost turns: seq<Turn>)
    returns (mark': nat, ghost t: Turn)
    requires ValidView(q.view) && mark < 0x1_0000_0000 && After(turns) == Socket(Unpack(mark), origin)
    ensures mark' < 0x1_0000_0000 && TurnOk(t) && t.view == q.view && t.uid == q.uid && t.cmd == q.cmd
    ensures After(turns + [t]).mark == Unpack(mark')
  {
    var error;
    ghost var vpn, vpnFor;
    error, mark', vpn, vpnFor := ProcessClient(q.view, q.uid, q.cmd, mark, origin);
    t := Turn(q.view, q.uid, q.cmd, vpn, vpnFor);
    AfterNext(turns, t);
  }

  /**
   * The server on the 32-bit mark of one socket, from mark 0 over any requests. The mark ends as one with a VPN id
   * that is protected and implicit but was not given by SELECT_FOR_USER exactly when the id turned virtual in
   * between and was left alone since.
   */
  method ServeSocket(requests: seq<Request>) returns (mark: nat, ghost origin: Origin, ghost turns: seq<Turn>)
    requires forall k :: 0 <= k < |requests| ==> ValidView(requests[k].view)
    ensures mark < 0x1_0000_0000 && Answers(turns, requests) && After(turns) == Socket(Unpack(mark), origin)
    ensures requests != [] ==>
              var m, v := Unpack(mark), requests[|requests| - 1].view;
              && (m.protect && !m.explicit && IsVirtual(v, m.netId) && origin != ForUser <==>
                  exists k: nat :: TurnedAt(turns, k))
              && (StaysNonVirtual(turns) && m.protect && !m.explicit && IsVirtual(v, m.netId) ==> origin == ForUser)
  {
    mark, origin, turns := 0, Initial, [];
    assert Unpack(0) == NEW_SOCKET.mark;
    for i := 0 to |requests|
      invariant mark < 0x1_0000_0000 && Answers(turns, requests[..i]) && After(turns) == Socket(Unpack(mark), origin)
    {
      ghost var t;
      mark, t := ServeRequest(requests[i], mark, origin, turns);
      turns := turns + [t];
      origin := After(turns).origin;
    }
    if requests != [] {
      ProxyInvariantExact(turns);
      if StaysNonVirtual(turns) {
        ProxySocketsComeFromSelectForUser(turns);
      }
    }
  }

  /** ON_CONNECT never gives a socket the id of a secure VPN; it can only leave one in place. */
  lemma {:induction false} ConnectNeverPicksSecureVpn(v: View, uid: Uid, vpn: Option<NetId>, vpnFor: Option<NetId>,
                                                      s: Socket)
    requires ValidView(v) && VpnOf(v, uid, vpn)
    requires IsSecure(v, Process(v, uid, OnConnect, vpn, vpnFor, s).socket.mark.netId)
    ensures Process(v, uid, OnConnect, vpn, vpnFor, s).socket.mark.netId == s.mark.netId
    ensures s.mark.explicit || s.mark.protect
  {
    DefaultIsNotVirtual(v);
  }

  /**
   * The exception is real: a protected socket connects over physical network 100, the network is destroyed, a VPN
   * is created under the same id, and the next command finds the socket looking like that of a proxy.
   */
  lemma {:induction false} ReusedIdBreaksTheInvariant()
    ensures exists turns: seq<Turn> ::
              turns != [] && TurnsOk(turns) && !ProxyInv(turns[|turns| - 1].view, After(turns))
  {
    var t0, t1 := Turn(BEFORE, 0, ProtectFromVpn, None, None), Turn(BEFORE, 0, OnConnect, None, None);
    var t2 := Turn(REUSED, 0, OnAccept, None, None);
    var turns := [t0, t1, t2];
    assert [] + [t0] == [t0] && [t0] + [t1] == [t0, t1] && [t0, t1] + [t2] == turns;
    AfterNext([], t0);
    AfterNext([t0], t1);
    AfterNext([t0, t1], t2);
    SampleRun();
    assert turns[0] == t0 && turns[1] == t1 && turns[2] == t2;
  }

  /** The controller after creating network 100 and making it the default, and after replacing it by a VPN. */
  const FIXED: Networks := map[LOCAL_NET_ID := Local({}), DUMMY_NET_ID := Dummy({DUMMY_INTERFACE})]
  const BEFORE := View(FIXED[100 := Physical({}, PermNone, true)], 100, {}, map[], {}, map[])
  const REUSED := View(FIXED[100 := Virtual({}, false, false)], NETID_UNSET, {}, map[], {}, map[])

  lemma {:induction false} SampleRun()
    ensures ValidView(BEFORE) && ValidView(REUSED) && VpnOf(BEFORE, 0, None) && VpnOf(REUSED, 0, None)
    ensures var s1 := Process(BEFORE, 0, ProtectFromVpn, None, None, NEW_SOCKET).socket;
            var s2 := Process(BEFORE, 0, OnConnect, None, None, s1).socket;
            !ProxyInv(REUSED, Process(REUSED, 0, OnAccept, None, None, s2).socket)
  {
    assert !IsVirtual(BEFORE, 0) && IsVirtual(REUSED, 100);
    var s1 := Process(BEFORE, 0, ProtectFromVpn, None, None, NEW_SOCKET).socket;
    assert s1.mark.protect && !s1.mark.explicit && s1.mark.netId == 0;
    var s2 := Process(BEFORE, 0, OnConnect, None, None, s1).socket;
    assert s2.mark.netId == 100 && s2.origin == Connected && s2.mark.protect && !s2.mark.explicit;
  }
}
