/** The DHCP client: message layout, option decoding and the retransmitting exchange of `dhcp_init_ifc`. */
module DhcpClientModel {
  import opened Bits

  const DHCP_MSG_FIXED_SIZE := 236
  const OP_BOOTREQUEST: byte := 1
  const OP_BOOTREPLY: byte := 2
  const HTYPE_ETHER: byte := 1
  const COOKIE: seq<byte> := [0x63, 0x82, 0x53, 0x63]

  const OPT_PAD: byte := 0
  const OPT_SUBNET_MASK: byte := 1
  const OPT_GATEWAY: byte := 3
  const OPT_DNS: byte := 6
  const OPT_BROADCAST_ADDR: byte := 28
  const OPT_REQUESTED_IP: byte := 50
  const OPT_LEASE_TIME: byte := 51
  const OPT_MESSAGE_TYPE: byte := 53
  const OPT_SERVER_ID: byte := 54
  const OPT_PARAMETER_LIST: byte := 55
  const OPT_END: byte := 255

  const DHCPDISCOVER: byte := 1
  const DHCPOFFER: byte := 2
  const DHCPREQUEST: byte := 3
  const DHCPACK: byte := 5
  const DHCPNAK: byte := 6

  const TIMEOUT_INITIAL := 4000
  const TIMEOUT_MAX := 32000

  type Bytes4 = b: seq<byte> | |b| == 4 witness [0, 0, 0, 0]
  type HwAddr = b: seq<byte> | |b| == 6 witness [0, 0, 0, 0, 0, 0]

  /** `struct dhcp_info`; addresses stay in network order, the mask is not reduced to a prefix length. */
  datatype Info = Info(typ: byte, ipaddr: Bytes4, gateway: Bytes4, mask: Bytes4,
                       dns1: Bytes4, dns2: Bytes4, server: Bytes4, lease: Bytes4)

  const ZERO4: Bytes4 := [0, 0, 0, 0]
  const NO_INFO := Info(0, ZERO4, ZERO4, ZERO4, ZERO4, ZERO4, ZERO4, ZERO4)

  // ----- decode_dhcp_msg

  /** The effect of one option with body length `n` whose body starts at `x[2]`. */
  function ApplyOption(x: seq<byte>, n: nat, info: Info): Info
    requires 2 < |x| && 2 + n <= |x|
  {
    if x[0] == OPT_MESSAGE_TYPE then info.(typ := x[2])
    else if n < 4 then info
    else if x[0] == OPT_SUBNET_MASK then info.(mask := x[2..6])
    else if x[0] == OPT_GATEWAY then info.(gateway := x[2..6])
    else if x[0] == OPT_DNS then
      if n >= 8 then info.(dns1 := x[2..6], dns2 := x[6..10]) else info.(dns1 := x[2..6])
    else if x[0] == OPT_LEASE_TIME then info.(lease := x[2..6])
    else if x[0] == OPT_SERVER_ID then info.(server := x[2..6])
    else info
  }

  /** The options that remain in `x`: a type and a length byte before each body, except for padding. */
  function DecodeOptions(x: seq<byte>, info: Info): Info
    decreases |x|
  {
    if |x| <= 2 then info
    else if x[0] == OPT_PAD then DecodeOptions(x[1..], info)
    else if x[0] == OPT_END || x[1] > |x| - 2 then info
    else DecodeOptions(x[2 + x[1]..], ApplyOption(x, x[1], info))
  }

  function Decode(msg: seq<byte>): Info {
    if |msg| < DHCP_MSG_FIXED_SIZE + 4 || msg[236..240] != COOKIE then NO_INFO
    else DecodeOptions(msg[240..], NO_INFO).(ipaddr := msg[16..20])
  }

  /** `decode_dhcp_msg`: a cursor walks the options and never leaves the message. */
  method DecodeDhcpMsg(msg: seq<byte>) returns (info: Info)
    ensures info == Decode(msg)
  {
    info := NO_INFO;
    if |msg| < DHCP_MSG_FIXED_SIZE + 4 {
      return;
    }
    if msg[236..240] != COOKIE {
      return;
    }
    var x, len := 240, |msg| - 240;
    while len > 2
      invariant 240 <= x && len == |msg| - x >= 0
      invariant DecodeOptions(msg[x..], info) == DecodeOptions(msg[240..], NO_INFO)
      decreases len
    {
      assert msg[x..][1..] == msg[x + 1..];
      var opt := msg[x];
      if opt == OPT_PAD {
        x, len := x + 1, len - 1;
        continue;
      }
      if opt == OPT_END {
        break;
      }
      var optlen := msg[x + 1];
      if optlen > len - 2 {
        break;
      }
      assert msg[x..][2 + optlen..] == msg[x + 2 + optlen..];
      info := ApplyOption(msg[x..], optlen, info);
      x, len := x + 2 + optlen, len - 2 - optlen;
    }
    info := info.(ipaddr := msg[16..20]);
  }

  // ----- messages of the client

  function Le32(x: u32): (r: seq<byte>)
    ensures |r| == 4
  {
    [x % 256, x / 0x100 % 256, x / 0x1_0000 % 256, x / 0x100_0000]
  }

  function Zeros(n: nat): (r: seq<byte>)
    ensures |r| == n
  {
    seq(n, i => 0)
  }

  /** The fixed part of a request; `xid` is stored in host order. */
  function FixedPart(hwaddr: HwAddr, xid: u32): (r: seq<byte>)
    ensures |r| == DHCP_MSG_FIXED_SIZE
  {
    [OP_BOOTREQUEST, HTYPE_ETHER, 6, 0] + Le32(xid) + [0, 0, 0x80, 0] + Zeros(16) + (hwaddr + Zeros(10)) + Zeros(192)
  }

  const PARAMETERS: seq<byte> :=
    [OPT_PARAMETER_LIST, 4, OPT_SUBNET_MASK, OPT_GATEWAY, OPT_DNS, OPT_BROADCAST_ADDR]

  function DiscoverMsg(hwaddr: HwAddr, xid: u32): seq<byte> {
    FixedPart(hwaddr, xid) + COOKIE + [OPT_MESSAGE_TYPE, 1, DHCPDISCOVER] + PARAMETERS + [OPT_END]
  }

  function RequestMsg(hwaddr: HwAddr, xid: u32, ipaddr: Bytes4, server: Bytes4): seq<byte> {
    FixedPart(hwaddr, xid) + COOKIE + [OPT_MESSAGE_TYPE, 1, DHCPREQUEST] + PARAMETERS +
    ([OPT_REQUESTED_IP, 4] + ipaddr) + ([OPT_SERVER_ID, 4] + server) + [OPT_END]
  }

  /** `is_valid_reply`, on the fixed parts of the message sent and of the reply. */
  predicate IsValidReply(msg: seq<byte>, reply: seq<byte>)
    requires |msg| >= DHCP_MSG_FIXED_SIZE && msg[2] <= 16
  {
    && |reply| >= DHCP_MSG_FIXED_SIZE
    && reply[0] == OP_BOOTREPLY
    && reply[4..8] == msg[4..8]
    && reply[1] == msg[1]
    && reply[2] == msg[2]
    && reply[28..28 + msg[2]] == msg[28..28 + msg[2]]
  }

  /** A reply to this client with transaction id `xid` (section 3.1 of RFC 2131). */
  predicate AnswersTo(hwaddr: HwAddr, xid: u32, reply: seq<byte>) {
    && |reply| >= DHCP_MSG_FIXED_SIZE
    && reply[0] == OP_BOOTREPLY && reply[1] == HTYPE_ETHER && reply[2] == 6
    && reply[4..8] == Le32(xid)
    && reply[28..34] == hwaddr
  }

  lemma {:induction false} FixedFields(hwaddr: HwAddr, xid: u32, rest: seq<byte>)
    ensures var m := FixedPart(hwaddr, xid) + rest;
            m[1] == HTYPE_ETHER && m[2] == 6 && m[4..8] == Le32(xid) && m[28..34] == hwaddr
  {
    var f := FixedPart(hwaddr, xid);
    assert f[28..44] == hwaddr + Zeros(10);
    assert f[28..34] == f[28..44][..6];
    var m := f + rest;
    assert m[4..8] == f[4..8] && m[28..34] == f[28..34];
  }

  lemma {:induction false} ReplyToMessage(hwaddr: HwAddr, xid: u32, rest: seq<byte>, reply: seq<byte>)
    ensures var m := FixedPart(hwaddr, xid) + rest;
            && m[2] <= 16
            && (IsValidReply(m, reply) <==> AnswersTo(hwaddr, xid, reply))
  {
    FixedFields(hwaddr, xid, rest);
  }

  lemma {:induction false} DiscoverReply(hwaddr: HwAddr, xid: u32, reply: seq<byte>)
    ensures var m := DiscoverMsg(hwaddr, xid);
            && |m| >= DHCP_MSG_FIXED_SIZE && m[2] <= 16
            && (IsValidReply(m, reply) <==> AnswersTo(hwaddr, xid, reply))
  {
    var rest := COOKIE + [OPT_MESSAGE_TYPE, 1, DHCPDISCOVER] + PARAMETERS + [OPT_END];
    assert DiscoverMsg(hwaddr, xid) == FixedPart(hwaddr, xid) + rest;
    ReplyToMessage(hwaddr, xid, rest, reply);
  }

  lemma {:induction false} RequestReply(hwaddr: HwAddr, xid: u32, ipaddr: Bytes4, server: Bytes4, reply: seq<byte>)
    ensures var m := RequestMsg(hwaddr, xid, ipaddr, server);
            && |m| >= DHCP_MSG_FIXED_SIZE && m[2] <= 16
            && (IsValidReply(m, reply) <==> AnswersTo(hwaddr, xid, reply))
  {
    var rest := COOKIE + [OPT_MESSAGE_TYPE, 1, DHCPREQUEST] + PARAMETERS +
                ([OPT_REQUESTED_IP, 4] + ipaddr) + ([OPT_SERVER_ID, 4] + server) + [OPT_END];
    assert RequestMsg(hwaddr, xid, ipaddr, server) == FixedPart(hwaddr, xid) + rest;
    ReplyToMessage(hwaddr, xid, rest, reply);
  }

  // ----- dhcp_init_ifc

  /** What `poll` and `receive_packet` bring, in the order in which they bring it. */
  datatype Event =
    | Timeout
    | PollFailed(transient: bool)   // EAGAIN or EINTR, or anything else
    | ReceiveFailed(fatal: bool)    // ENETDOWN or ENXIO, or anything else
    | Arrived(reply: seq<byte>)

  datatype Action =
    | SentDiscover(xid: u32)
    | SentRequest(xid: u32, ipaddr: Bytes4, server: Bytes4)
    | Heard(reply: seq<byte>)

  datatype Outcome =
    | Waiting                       // the events so far do not end the run
    | Acknowledged(info: Info)
    | OfferedOnly(info: Info)       // timed out while the last decoded message was an offer
    | TimedOut
    | Denied
    | Failed

  datatype Phase = Selecting | Requesting

  function Discovers(log: seq<Action>): nat {
    if log == [] then 0
    else Discovers(log[..|log| - 1]) + if log[|log| - 1].SentDiscover? then 1 else 0
  }

  function Requests(log: seq<Action>): nat {
    if log == [] then 0
    else Requests(log[..|log| - 1]) + if log[|log| - 1].SentRequest? then 1 else 0
  }

  lemma {:induction false} CountAppend(log: seq<Action>, a: Action)
    ensures Discovers(log + [a]) == Discovers(log) + if a.SentDiscover? then 1 else 0
    ensures Requests(log + [a]) == Requests(log) + if a.SentRequest? then 1 else 0
  {
    assert (log + [a])[..|log|] == log;
  }

  /** No DISCOVER after a REQUEST. */
  ghost predicate Ordered(log: seq<Action>) {
    forall i, j :: 0 <= i < j < |log| && log[i].SentRequest? ==> !log[j].SentDiscover?
  }

  /** Every DISCOVER carries `xid`, every REQUEST the one after it. */
  ghost predicate Numbered(log: seq<Action>, xid: u32) {
    forall i :: 0 <= i < |log| ==>
      && (log[i].SentDiscover? ==> log[i].xid == xid)
      && (log[i].SentRequest? ==> log[i].xid == (xid + 1) % TWO_32)
  }

  ghost predicate IsOffer(a: Action, hwaddr: HwAddr, xid: u32) {
    a.Heard? && AnswersTo(hwaddr, xid, a.reply) && Decode(a.reply).typ == DHCPOFFER
  }

  ghost predicate IsAck(a: Action, hwaddr: HwAddr, xid: u32) {
    a.Heard? && AnswersTo(hwaddr, xid, a.reply) && Decode(a.reply).typ == DHCPACK
  }

  /** A valid offer, answering an earlier DISCOVER, and right after it the first REQUEST. */
  ghost predicate Offered(log: seq<Action>, hwaddr: HwAddr, xid: u32, d: nat, o: nat, r: nat) {
    && d < o && r == o + 1 < |log| && log[d].SentDiscover? && IsOffer(log[o], hwaddr, xid) && log[r].SentRequest?
    && forall i :: 0 <= i < r ==> !log[i].SentRequest?
  }

  // ----- the addresses in a REQUEST

  /** What the last message heard says, valid or not. */
  function LastHeard(log: seq<Action>): Info {
    if log == [] then NO_INFO
    else if log[|log| - 1].Heard? then Decode(log[|log| - 1].reply)
    else LastHeard(log[..|log| - 1])
  }

  /** The REQUEST at `i`, if there is one, asks for the address and the server of the last message heard before it. */
  ghost predicate CarriesLast(log: seq<Action>, i: nat)
    requires i < |log|
  {
    log[i].SentRequest? ==>
      log[i].ipaddr == LastHeard(log[..i]).ipaddr && log[i].server == LastHeard(log[..i]).server
  }

  ghost predicate Carried(log: seq<Action>) {
    forall i: nat :: i < |log| ==> CarriesLast(log, i)
  }

  lemma {:induction false} LastHeardNext(log: seq<Action>, a: Action)
    ensures LastHeard(log + [a]) == if a.Heard? then Decode(a.reply) else LastHeard(log)
  {
    assert (log + [a])[..|log|] == log;
  }

  lemma {:induction false} CarriedNext(log: seq<Action>, a: Action)
    requires Carried(log)
    requires a.SentRequest? ==> a.ipaddr == LastHeard(log).ipaddr && a.server == LastHeard(log).server
    ensures Carried(log + [a])
  {
    var log' := log + [a];
    forall i: nat | i < |log'| ensures CarriesLast(log', i) {
      assert log'[..i] == log[..i];
      if i < |log| {
        assert CarriesLast(log, i);
      } else {
        assert log[..i] == log;
      }
    }
  }

  /**
   * The first REQUEST asks for what the offer before it offers. A later one does exactly when the last message heard
   * before it, valid or not, has the address and the server of the offer.
   */
  lemma {:induction false} RequestedAddress(log: seq<Action>, hwaddr: HwAddr, xid: u32, d: nat, o: nat, r: nat, i: nat)
    requires Carried(log) && Offered(log, hwaddr, xid, d, o, r) && i < |log| && log[i].SentRequest?
    ensures var offer := Decode(log[o].reply);
            && log[r].ipaddr == offer.ipaddr && log[r].server == offer.server && r <= i
            && ((log[i].ipaddr == offer.ipaddr && log[i].server == offer.server) <==>
                (LastHeard(log[..i]).ipaddr == offer.ipaddr && LastHeard(log[..i]).server == offer.server))
  {
    assert CarriesLast(log, i) && CarriesLast(log, r);
    assert log[..r][..o] == log[..o] && log[..r][o] == log[o];
  }

  /** What has been done so far, given the variables of the event loop. */
  ghost predicate LoopInv(phase: Phase, timeout: nat, xid: u32, xid0: u32, hwaddr: HwAddr, log: seq<Action>) {
    && Ordered(log) && Numbered(log, xid0)
    && |log| > 0 && log[0].SentDiscover?
    && 1 <= Discovers(log) <= 4
    && match phase
       case Selecting =>
         xid == xid0 && Requests(log) == 0 && timeout == RetryTimeout(Discovers(log))
         && forall i :: 0 <= i < |log| ==> !log[i].SentRequest?
       case Requesting =>
         && xid == (xid0 + 1) % TWO_32
         && 1 <= Requests(log) <= 4 && timeout == RetryTimeout(Requests(log))
         && exists d: nat, o: nat, r: nat :: Offered(log, hwaddr, xid0, d, o, r)
  }

  /** The timeout in force after `n` transmissions in one state. */
  function RetryTimeout(n: nat): nat {
    if n <= 1 then TIMEOUT_INITIAL else 2 * RetryTimeout(n - 1)
  }

  /** The exchange that an acknowledged run contains, in order (section 3.1 of RFC 2131). */
  ghost predicate FullExchange(log: seq<Action>, hwaddr: HwAddr, xid: u32, info: Info) {
    exists d: nat, o: nat, r: nat, a: nat ::
      && Offered(log, hwaddr, xid, d, o, r) && r < a < |log|
      && IsAck(log[a], hwaddr, (xid + 1) % TWO_32) && info == Decode(log[a].reply)
  }

  /** Hearing a message, or sending one, keeps an exchange that has already taken place. */
  lemma {:induction false} OfferedGrows(log: seq<Action>, a: Action, hwaddr: HwAddr, xid: u32, d: nat, o: nat, r: nat)
    requires Offered(log, hwaddr, xid, d, o, r)
    ensures Offered(log + [a], hwaddr, xid, d, o, r)
  {}

  lemma {:induction false} HeardKeepsInv(phase: Phase, timeout: nat, xid: u32, xid0: u32, hwaddr: HwAddr,
                                         log: seq<Action>, reply: seq<byte>)
    requires LoopInv(phase, timeout, xid, xid0, hwaddr, log)
    ensures LoopInv(phase, timeout, xid, xid0, hwaddr, log + [Heard(reply)])
  {
    CountAppend(log, Heard(reply));
    if phase.Requesting? {
      var d, o, r :| Offered(log, hwaddr, xid0, d, o, r);
      OfferedGrows(log, Heard(reply), hwaddr, xid0, d, o, r);
    }
  }

  /** A retransmission in the selecting state. */
  lemma {:induction false} RediscoverKeepsInv(timeout: nat, xid0: u32, hwaddr: HwAddr, log: seq<Action>)
    requires LoopInv(Selecting, timeout, xid0, xid0, hwaddr, log) && timeout < TIMEOUT_MAX
    ensures LoopInv(Selecting, 2 * timeout, xid0, xid0, hwaddr, log + [SentDiscover(xid0)])
  {
    CountAppend(log, SentDiscover(xid0));
    TimeoutBound(Discovers(log));
  }

  /** A retransmission in the requesting state. */
  lemma {:induction false} RerequestKeepsInv(timeout: nat, xid: u32, xid0: u32, hwaddr: HwAddr, log: seq<Action>,
                                             ip: Bytes4, server: Bytes4)
    requires LoopInv(Requesting, timeout, xid, xid0, hwaddr, log) && timeout < TIMEOUT_MAX
    ensures LoopInv(Requesting, 2 * timeout, xid, xid0, hwaddr, log + [SentRequest(xid, ip, server)])
  {
    var a := SentRequest(xid, ip, server);
    CountAppend(log, a);
    TimeoutBound(Requests(log));
    var d, o, r :| Offered(log, hwaddr, xid0, d, o, r);
    OfferedGrows(log, a, hwaddr, xid0, d, o, r);
  }

  /** The first REQUEST, right after the offer that it answers. */
  lemma {:induction false} FirstRequestKeepsInv(timeout: nat, xid0: u32, hwaddr: HwAddr, log: seq<Action>,
                                                reply: seq<byte>, ip: Bytes4, server: Bytes4)
    requires LoopInv(Selecting, timeout, xid0, xid0, hwaddr, log)
    requires IsOffer(Heard(reply), hwaddr, xid0)
    ensures var xid := (xid0 + 1) % TWO_32;
            LoopInv(Requesting, TIMEOUT_INITIAL, xid, xid0, hwaddr,
                    log + [Heard(reply)] + [SentRequest(xid, ip, server)])
  {
    var xid := (xid0 + 1) % TWO_32;
    var log1 := log + [Heard(reply)];
    var log2 := log1 + [SentRequest(xid, ip, server)];
    CountAppend(log, Heard(reply));
    CountAppend(log1, SentRequest(xid, ip, server));
    assert log2[0] == log[0] && log2[|log|] == Heard(reply);
    assert Offered(log2, hwaddr, xid0, 0, |log|, |log| + 1);
  }

  lemma {:induction false} TimeoutBound(n: nat)
    requires 1 <= n <= 4
    ensures RetryTimeout(n) < TIMEOUT_MAX <==> n < 4
  {
    assert RetryTimeout(1) == 4000;
    assert RetryTimeout(2) == 8000;
    assert RetryTimeout(3) == 16000;
    assert RetryTimeout(4) == 32000;
  }

  lemma {:induction false} AckCompletes(xid: u32, xid0: u32, hwaddr: HwAddr, log: seq<Action>, reply: seq<byte>,
                                        timeout: nat)
    requires LoopInv(Requesting, timeout, xid, xid0, hwaddr, log)
    requires IsAck(Heard(reply), hwaddr, xid)
    ensures FullExchange(log + [Heard(reply)], hwaddr, xid0, Decode(reply))
  {
    var log' := log + [Heard(reply)];
    var d, o, r :| Offered(log, hwaddr, xid0, d, o, r);
    OfferedGrows(log, Heard(reply), hwaddr, xid0, d, o, r);
    assert log'[|log|] == Heard(reply);
  }

  lemma {:induction false} FirstDiscoverInv(xid0: u32, hwaddr: HwAddr)
    ensures LoopInv(Selecting, TIMEOUT_INITIAL, xid0, xid0, hwaddr, [SentDiscover(xid0)])
  {
    var log := [SentDiscover(xid0)];
    assert log[..0] == [];
  }

  /** The variables of the event loop, and what has been done. */
  datatype Client = Client(phase: Phase, timeout: nat, xid: u32, info: Info, log: seq<Action>)

  ghost predicate Running(c: Client, xid0: u32, hwaddr: HwAddr) {
    && LoopInv(c.phase, c.timeout, c.xid, xid0, hwaddr, c.log)
    && c.info == LastHeard(c.log) && Carried(c.log)
  }

  /** What every exit promises. */
  ghost predicate Sound(outcome: Outcome, log: seq<Action>, xid0: u32, hwaddr: HwAddr) {
    && Discovers(log) <= 4 && Requests(log) <= 4 && Ordered(log) && Numbered(log, xid0) && Carried(log)
    && (outcome.Acknowledged? ==> FullExchange(log, hwaddr, xid0, outcome.info))
    && (outcome.TimedOut? || outcome.OfferedOnly? ==> Discovers(log) == 4 || Requests(log) == 4)
  }

  lemma {:induction false} RunningIsSound(c: Client, xid0: u32, hwaddr: HwAddr, outcome: Outcome)
    requires Running(c, xid0, hwaddr) && (outcome.Waiting? || outcome.Failed? || outcome.Denied?)
    ensures Sound(outcome, c.log, xid0, hwaddr)
  {}

  /** The message of the phase, sent again. */
  function Again(c: Client): Action {
    if c.phase.Selecting? then SentDiscover(c.xid) else SentRequest(c.xid, c.info.ipaddr, c.info.server)
  }

  /** What the last timeout leads to, if `info` was decoded last. */
  function GivenUp(info: Info): Outcome {
    if info.typ == DHCPOFFER then OfferedOnly(info) else TimedOut
  }

  /** A timeout: the client gives up, or sends its message again. */
  method TimedOutOnce(c: Client, ghost xid0: u32, ghost hwaddr: HwAddr) returns (outcome: Outcome, c': Client)
    requires Running(c, xid0, hwaddr)
    ensures Sound(outcome, c'.log, xid0, hwaddr) && (outcome.Waiting? ==> Running(c', xid0, hwaddr))
    ensures c.timeout >= TIMEOUT_MAX ==> outcome == GivenUp(c.info) && c' == c
    ensures c.timeout < TIMEOUT_MAX ==>
              && outcome == Waiting
              && c' == c.(timeout := 2 * c.timeout, log := c.log + [Again(c)])
  {
    if c.timeout >= TIMEOUT_MAX {
      TimeoutBound(if c.phase.Selecting? then Discovers(c.log) else Requests(c.log));
      return GivenUp(c.info), c;
    }
    var sent := Again(c);
    if c.phase.Selecting? {
      RediscoverKeepsInv(c.timeout, xid0, hwaddr, c.log);
    } else {
      RerequestKeepsInv(c.timeout, c.xid, xid0, hwaddr, c.log, c.info.ipaddr, c.info.server);
    }
    CarriedNext(c.log, sent);
    LastHeardNext(c.log, sent);
    c' := c.(timeout := 2 * c.timeout, log := c.log + [sent]);
    RunningIsSound(c', xid0, hwaddr, Waiting);
    outcome := Waiting;
  }

  /** The client that has sent the first REQUEST, for what was decoded last. */
  function Requested(c: Client): Client {
    var xid := (c.xid + 1) % TWO_32;
    Client(Requesting, TIMEOUT_INITIAL, xid, c.info, c.log + [SentRequest(xid, c.info.ipaddr, c.info.server)])
  }

  /** A valid offer while selecting: the first REQUEST. */
  method AnswerOffer(c: Client, c0: Client, ghost xid0: u32, ghost hwaddr: HwAddr, reply: seq<byte>)
    returns (c': Client)
    requires Running(c0, xid0, hwaddr) && c0.phase.Selecting? && IsOffer(Heard(reply), hwaddr, xid0)
    requires c == c0.(info := Decode(reply), log := c0.log + [Heard(reply)]) && Running(c, xid0, hwaddr)
    ensures Running(c', xid0, hwaddr)
    ensures c' == Requested(c)
  {
    FirstRequestKeepsInv(c0.timeout, xid0, hwaddr, c0.log, reply, c.info.ipaddr, c.info.server);
    var xid := (c.xid + 1) % TWO_32;
    var sent := SentRequest(xid, c.info.ipaddr, c.info.server);
    CarriedNext(c.log, sent);
    LastHeardNext(c.log, sent);
    c' := Client(Requesting, TIMEOUT_INITIAL, xid, c.info, c.log + [sent]);
  }

  /** A message arrives: it is decoded first and validated then. */
  method HandleReply(c0: Client, reply: seq<byte>, ghost xid0: u32, hwaddr: HwAddr)
    returns (outcome: Outcome, c: Client)
    requires Running(c0, xid0, hwaddr)
    ensures Sound(outcome, c.log, xid0, hwaddr) && (outcome.Waiting? ==> Running(c, xid0, hwaddr))
    ensures var heard, typ := c0.(info := Decode(reply), log := c0.log + [Heard(reply)]), Decode(reply).typ;
            if !AnswersTo(hwaddr, c0.xid, reply) then outcome == Waiting && c == heard
            else if c0.phase.Selecting? then
              && outcome == Waiting
              && c == if typ == DHCPOFFER then Requested(heard) else heard
            else
              && c == heard
              && outcome == if typ == DHCPACK then Acknowledged(heard.info)
                            else if typ == DHCPNAK then Denied else Waiting
  {
    var info := DecodeDhcpMsg(reply);
    var valid := ReplyIsValid(c0.phase, hwaddr, c0.xid, reply);
    HeardKeepsInv(c0.phase, c0.timeout, c0.xid, xid0, hwaddr, c0.log, reply);
    CarriedNext(c0.log, Heard(reply));
    LastHeardNext(c0.log, Heard(reply));
    c := c0.(info := info, log := c0.log + [Heard(reply)]);
    RunningIsSound(c, xid0, hwaddr, Waiting);
    outcome := Waiting;
    if valid {
      if c.phase.Selecting? {
        if info.typ == DHCPOFFER {
          c := AnswerOffer(c, c0, xid0, hwaddr, reply);
          RunningIsSound(c, xid0, hwaddr, Waiting);
        }
      } else if info.typ == DHCPACK {
        AckCompletes(c0.xid, xid0, hwaddr, c0.log, reply, c0.timeout);
        outcome := Acknowledged(info);
      } else if info.typ == DHCPNAK {
        outcome := Denied;
      }
    }
  }

  /** While a REQUEST is out, any message that does not answer it redirects the next REQUEST to what it names. */
  method StrayMessageRedirects(c: Client, stray: seq<byte>, ghost xid0: u32, hwaddr: HwAddr) returns (c': Client)
    requires Running(c, xid0, hwaddr) && c.phase.Requesting? && c.timeout < TIMEOUT_MAX
    requires !AnswersTo(hwaddr, c.xid, stray)
    ensures c'.log == c.log + [Heard(stray)] + [SentRequest(c.xid, Decode(stray).ipaddr, Decode(stray).server)]
  {
    var outcome;
    outcome, c' := HandleReply(c, stray, xid0, hwaddr);
    outcome, c' := TimedOutOnce(c', xid0, hwaddr);
  }

  // ----- which events decide a run

  /** The timeouts among the events from `from` up to `n`. */
  function Timeouts(events: seq<Event>, from: nat, n: nat): nat
    requires from <= n <= |events|
  {
    if n == from then 0 else Timeouts(events, from, n - 1) + if events[n - 1].Timeout? then 1 else 0
  }

  /** What the last message among the first `n` events says, valid or not. */
  function LastArrived(events: seq<Event>, n: nat): Info
    requires n <= |events|
  {
    if n == 0 then NO_INFO
    else if events[n - 1].Arrived? then Decode(events[n - 1].reply)
    else LastArrived(events, n - 1)
  }

  /** A reply that ends a phase: an offer while selecting, an acknowledgement or a denial while requesting. */
  ghost predicate Answers(reply: seq<byte>, phase: Phase, xid: u32, hwaddr: HwAddr) {
    && AnswersTo(hwaddr, xid, reply)
    && var typ := Decode(reply).typ;
       if phase.Selecting? then typ == DHCPOFFER else typ == DHCPACK || typ == DHCPNAK
  }

  /** An event that ends a phase, after `n` timeouts in it: the fourth timeout, a failure, or an answer. */
  ghost predicate Decides(e: Event, phase: Phase, xid: u32, hwaddr: HwAddr, n: nat) {
    match e
    case Timeout => n == 3
    case PollFailed(transient) => !transient
    case ReceiveFailed(fatal) => fatal
    case Arrived(reply) => Answers(reply, phase, xid, hwaddr)
  }

  /** No event from `from` up to `n` ends the phase that began at `from`. */
  ghost predicate Undecided(events: seq<Event>, phase: Phase, xid: u32, hwaddr: HwAddr, from: nat, n: nat) {
    from <= n <= |events| &&
    forall i :: from <= i < n ==> !Decides(events[i], phase, xid, hwaddr, Timeouts(events, from, i))
  }

  /** Event `n` ends the phase that began at `from`. */
  ghost predicate DecidedAt(events: seq<Event>, phase: Phase, xid: u32, hwaddr: HwAddr, from: nat, n: nat) {
    && n < |events| && Undecided(events, phase, xid, hwaddr, from, n)
    && Decides(events[n], phase, xid, hwaddr, Timeouts(events, from, n))
  }

  /** How a run ends at event `n` when that is not an answer. */
  function BrokenOff(events: seq<Event>, n: nat): Outcome
    requires n < |events|
  {
    if events[n].Timeout? then GivenUp(LastArrived(events, n)) else Failed
  }

  /** What the events after the first REQUEST, from `from` on, lead to. */
  ghost predicate RequestEnds(events: seq<Event>, xid: u32, hwaddr: HwAddr, from: nat, outcome: Outcome)
    requires from <= |events|
  {
    && (Undecided(events, Requesting, xid, hwaddr, from, |events|) ==> outcome == Waiting)
    && forall a: nat :: DecidedAt(events, Requesting, xid, hwaddr, from, a) ==>
         outcome == if !events[a].Arrived? then BrokenOff(events, a)
                    else if Decode(events[a].reply).typ == DHCPACK then Acknowledged(Decode(events[a].reply))
                    else Denied
  }

  /** What a whole run leads to. */
  ghost predicate RunEnds(events: seq<Event>, xid0: u32, hwaddr: HwAddr, outcome: Outcome) {
    && (Undecided(events, Selecting, xid0, hwaddr, 0, |events|) ==> outcome == Waiting)
    && forall o: nat :: DecidedAt(events, Selecting, xid0, hwaddr, 0, o) ==>
         if events[o].Arrived? then RequestEnds(events, (xid0 + 1) % TWO_32, hwaddr, o + 1, outcome)
         else outcome == BrokenOff(events, o)
  }

  /** A phase has one end. */
  lemma {:induction false} DecidedOnce(events: seq<Event>, phase: Phase, xid: u32, hwaddr: HwAddr, from: nat, m: nat,
                                       n: nat)
    requires DecidedAt(events, phase, xid, hwaddr, from, m)
    requires DecidedAt(events, phase, xid, hwaddr, from, n) || Undecided(events, phase, xid, hwaddr, from, |events|)
    ensures n == m && DecidedAt(events, phase, xid, hwaddr, from, n)
  {}

  /** The event loop before event `n`, in the phase that began at `from`. */
  ghost predicate Abreast(c: Client, events: seq<Event>, xid0: u32, hwaddr: HwAddr, from: nat, n: nat) {
    && from <= n <= |events| && c.info == LastArrived(events, n)
    && Undecided(events, c.phase, c.xid, hwaddr, from, n)
    && match c.phase
       case Selecting =>
         from == 0 && Discovers(c.log) == 1 + Timeouts(events, from, n)
       case Requesting =>
         && Requests(c.log) == 1 + Timeouts(events, from, n)
         && from > 0 && DecidedAt(events, Selecting, xid0, hwaddr, 0, from - 1) && events[from - 1].Arrived?
  }

  /** The timeout in force tells how many there were. */
  lemma {:induction false} LastTimeout(c: Client, events: seq<Event>, xid0: u32, hwaddr: HwAddr, from: nat, n: nat)
    requires Running(c, xid0, hwaddr) && Abreast(c, events, xid0, hwaddr, from, n)
    ensures c.timeout >= TIMEOUT_MAX <==> Timeouts(events, from, n) == 3
  {
    TimeoutBound(if c.phase.Selecting? then Discovers(c.log) else Requests(c.log));
  }

  /** An event that does not end the phase. */
  lemma {:induction false} UndecidedNext(events: seq<Event>, phase: Phase, xid: u32, hwaddr: HwAddr, from: nat, n: nat)
    requires n < |events| && Undecided(events, phase, xid, hwaddr, from, n)
    requires !Decides(events[n], phase, xid, hwaddr, Timeouts(events, from, n))
    ensures Undecided(events, phase, xid, hwaddr, from, n + 1)
  {}

  lemma {:induction false} RunDecided(c: Client, events: seq<Event>, xid0: u32, hwaddr: HwAddr, from: nat, n: nat,
                                      outcome: Outcome)
    requires Running(c, xid0, hwaddr) && Abreast(c, events, xid0, hwaddr, from, n) && n < |events|
    requires Decides(events[n], c.phase, c.xid, hwaddr, Timeouts(events, from, n))
    requires outcome == if !events[n].Arrived? then BrokenOff(events, n)
                        else if Decode(events[n].reply).typ == DHCPACK then Acknowledged(Decode(events[n].reply))
                        else Denied
    requires c.phase.Requesting? || !events[n].Arrived?
    ensures RunEnds(events, xid0, hwaddr, outcome)
  {
    if c.phase.Selecting? {
      forall o: nat | DecidedAt(events, Selecting, xid0, hwaddr, 0, o)
        ensures o == n
      {
        DecidedOnce(events, Selecting, xid0, hwaddr, 0, n, o);
      }
    } else {
      RequestDecided(events, c.xid, hwaddr, from, n, outcome);
      SelectDecided(events, xid0, hwaddr, from - 1, outcome);
    }
  }

  lemma {:induction false} RequestDecided(events: seq<Event>, xid: u32, hwaddr: HwAddr, from: nat, n: nat,
                                          outcome: Outcome)
    requires DecidedAt(events, Requesting, xid, hwaddr, from, n) && from <= |events|
    requires outcome == if !events[n].Arrived? then BrokenOff(events, n)
                        else if Decode(events[n].reply).typ == DHCPACK then Acknowledged(Decode(events[n].reply))
                        else Denied
    ensures RequestEnds(events, xid, hwaddr, from, outcome)
  {
    forall a: nat | DecidedAt(events, Requesting, xid, hwaddr, from, a)
      ensures a == n
    {
      DecidedOnce(events, Requesting, xid, hwaddr, from, n, a);
    }
  }

  lemma {:induction false} SelectDecided(events: seq<Event>, xid0: u32, hwaddr: HwAddr, n: nat, outcome: Outcome)
    requires DecidedAt(events, Selecting, xid0, hwaddr, 0, n) && events[n].Arrived?
    requires RequestEnds(events, (xid0 + 1) % TWO_32, hwaddr, n + 1, outcome)
    ensures RunEnds(events, xid0, hwaddr, outcome)
  {
    forall o: nat | DecidedAt(events, Selecting, xid0, hwaddr, 0, o)
      ensures o == n
    {
      DecidedOnce(events, Selecting, xid0, hwaddr, 0, n, o);
    }
  }

  /** Events that run out. */
  lemma {:induction false} RunWaits(c: Client, events: seq<Event>, xid0: u32, hwaddr: HwAddr, from: nat)
    requires Running(c, xid0, hwaddr) && Abreast(c, events, xid0, hwaddr, from, |events|)
    ensures RunEnds(events, xid0, hwaddr, Waiting)
  {
    if c.phase.Requesting? {
      SelectDecided(events, xid0, hwaddr, from - 1, Waiting);
    }
  }

  /** One event. */
  method HandleEvent(c0: Client, events: seq<Event>, ghost xid0: u32, hwaddr: HwAddr, ghost from0: nat, n: nat)
    returns (outcome: Outcome, c: Client, ghost from: nat)
    requires Running(c0, xid0, hwaddr) && Abreast(c0, events, xid0, hwaddr, from0, n) && n < |events|
    ensures Sound(outcome, c.log, xid0, hwaddr)
    ensures outcome.Waiting? ==> Running(c, xid0, hwaddr) && Abreast(c, events, xid0, hwaddr, from, n + 1)
    ensures !outcome.Waiting? ==> RunEnds(events, xid0, hwaddr, outcome)
  {
    outcome, c, from := Waiting, c0, from0;
    RunningIsSound(c, xid0, hwaddr, Failed);
    RunningIsSound(c, xid0, hwaddr, Waiting);
    LastTimeout(c0, events, xid0, hwaddr, from0, n);
    match events[n] {
      case Timeout => outcome, c := TimedOutOnce(c0, xid0, hwaddr);
      case PollFailed(transient) => outcome := if transient then Waiting else Failed;
      case ReceiveFailed(fatal) => outcome := if fatal then Failed else Waiting;
      case Arrived(reply) => outcome, c := HandleReply(c0, reply, xid0, hwaddr);
    }
    if outcome.Waiting? {
      from := StillAbreast(c0, c, events, xid0, hwaddr, from0, n);
    } else {
      RunDecided(c0, events, xid0, hwaddr, from0, n, outcome);
    }
  }

  /** What an event that does not end the run leads to. */
  lemma {:induction false} StillAbreast(c0: Client, c: Client, events: seq<Event>, xid0: u32, hwaddr: HwAddr,
                                        from0: nat, n: nat)
    returns (from: nat)
    requires Running(c0, xid0, hwaddr) && Abreast(c0, events, xid0, hwaddr, from0, n) && n < |events|
    requires Next(c0, c, events[n], hwaddr, Timeouts(events, from0, n))
    ensures Abreast(c, events, xid0, hwaddr, from, n + 1)
  {
    var e := events[n];
    if e.Arrived? && Answers(e.reply, c0.phase, c0.xid, hwaddr) {
      from := n + 1;
      CountAppend(c0.log, Heard(e.reply));
      CountAppend(c0.log + [Heard(e.reply)], c.log[|c.log| - 1]);
    } else {
      from := from0;
      UndecidedNext(events, c0.phase, c0.xid, hwaddr, from0, n);
      if |c.log| > |c0.log| {
        CountAppend(c0.log, c.log[|c0.log|]);
      }
    }
  }

  /** `c` is the client after an event that does not end the run. */
  ghost predicate Next(c0: Client, c: Client, e: Event, hwaddr: HwAddr, n: nat) {
    match e
    case Timeout => n != 3 && c == c0.(timeout := 2 * c0.timeout, log := c0.log + [Again(c0)])
    case PollFailed(transient) => transient && c == c0
    case ReceiveFailed(fatal) => !fatal && c == c0
    case Arrived(reply) =>
      var heard := c0.(info := Decode(reply), log := c0.log + [Heard(reply)]);
      if !Answers(reply, c0.phase, c0.xid, hwaddr) then c == heard
      else c0.phase.Selecting? && c == Requested(heard)
  }

  /**
   * `dhcp_init_ifc` on any sequence of events: at most four DISCOVERs and four REQUESTs are sent, with the
   * two transaction ids, no DISCOVER follows a REQUEST, and the acknowledged exit is reached only through a
   * DISCOVER, a valid OFFER to it, the first REQUEST right after that and a valid ACK, in this order. Every REQUEST
   * carries the address and the server of the last message heard. The client gives up only after four
   * transmissions of the same message. The events alone tell which of them ends the run, and how (`RunEnds`).
   */
  method DhcpInitIfc(events: seq<Event>, xid0: u32, hwaddr: HwAddr) returns (outcome: Outcome, log: seq<Action>)
    ensures Discovers(log) <= 4 && Requests(log) <= 4
    ensures Ordered(log) && Numbered(log, xid0) && Carried(log)
    ensures outcome.Acknowledged? ==> FullExchange(log, hwaddr, xid0, outcome.info)
    ensures outcome.TimedOut? || outcome.OfferedOnly? ==> Discovers(log) == 4 || Requests(log) == 4
    ensures RunEnds(events, xid0, hwaddr, outcome)
  {
    var c := Client(Selecting, TIMEOUT_INITIAL, xid0, NO_INFO, [SentDiscover(xid0)]);
    FirstRunning(c, xid0, hwaddr);
    ghost var from := 0;
    for n := 0 to |events|
      invariant Running(c, xid0, hwaddr) && Abreast(c, events, xid0, hwaddr, from, n)
    {
      outcome, c, from := HandleEvent(c, events, xid0, hwaddr, from, n);
      if !outcome.Waiting? {
        return outcome, c.log;
      }
    }
    RunningIsSound(c, xid0, hwaddr, Waiting);
    RunWaits(c, events, xid0, hwaddr, from);
    return Waiting, c.log;
  }

  /**
   * An offer while selecting and an acknowledgement after it, with no failure, no denial and fewer than four timeouts
   * in each phase, and the client is configured with what was acknowledged.
   */
  lemma {:induction false} OfferThenAck(events: seq<Event>, xid0: u32, hwaddr: HwAddr, o: nat, a: nat, outcome: Outcome)
    requires RunEnds(events, xid0, hwaddr, outcome) && o < a < |events|
    requires forall i :: 0 <= i < a ==> !Fatal(events[i])
    requires events[o].Arrived? && Answers(events[o].reply, Selecting, xid0, hwaddr) && Timeouts(events, 0, o) < 4
    requires forall i :: 0 <= i < o && events[i].Arrived? ==> !Answers(events[i].reply, Selecting, xid0, hwaddr)
    requires events[a].Arrived? && Answers(events[a].reply, Requesting, (xid0 + 1) % TWO_32, hwaddr)
    requires Decode(events[a].reply).typ == DHCPACK && Timeouts(events, o + 1, a) < 4
    requires forall i :: o < i < a && events[i].Arrived? ==>
               !Answers(events[i].reply, Requesting, (xid0 + 1) % TWO_32, hwaddr)
    ensures outcome == Acknowledged(Decode(events[a].reply))
  {
    NotYet(events, Selecting, xid0, hwaddr, 0, o);
    NotYet(events, Requesting, (xid0 + 1) % TWO_32, hwaddr, o + 1, a);
    assert DecidedAt(events, Selecting, xid0, hwaddr, 0, o);
    assert DecidedAt(events, Requesting, (xid0 + 1) % TWO_32, hwaddr, o + 1, a);
  }

  predicate Fatal(e: Event) {
    (e.PollFailed? && !e.transient) || (e.ReceiveFailed? && e.fatal)
  }

  lemma {:induction false} NotYet(events: seq<Event>, phase: Phase, xid: u32, hwaddr: HwAddr, from: nat, n: nat)
    requires from <= n <= |events| && Timeouts(events, from, n) < 4
    requires forall i :: from <= i < n ==> !Fatal(events[i])
    requires forall i :: from <= i < n && events[i].Arrived? ==> !Answers(events[i].reply, phase, xid, hwaddr)
    ensures Undecided(events, phase, xid, hwaddr, from, n)
  {
    forall i | from <= i < n ensures !Decides(events[i], phase, xid, hwaddr, Timeouts(events, from, i)) {
      TimeoutsGrow(events, from, i + 1, n);
    }
  }

  lemma {:induction false} TimeoutsGrow(events: seq<Event>, from: nat, m: nat, n: nat)
    requires from <= m <= n <= |events|
    ensures Timeouts(events, from, m) <= Timeouts(events, from, n)
    decreases n
  {
    if m < n {
      TimeoutsGrow(events, from, m, n - 1);
    }
  }

  lemma {:induction false} FirstRunning(c: Client, xid0: u32, hwaddr: HwAddr)
    requires c == Client(Selecting, TIMEOUT_INITIAL, xid0, NO_INFO, [SentDiscover(xid0)])
    ensures Running(c, xid0, hwaddr)
  {
    FirstDiscoverInv(xid0, hwaddr);
    assert c.log == [] + [SentDiscover(xid0)];
    CarriedNext([], SentDiscover(xid0));
    LastHeardNext([], SentDiscover(xid0));
  }

  /** Validates a reply against the message last sent; which addresses it asked for plays no part. */
  method ReplyIsValid(phase: Phase, hwaddr: HwAddr, xid: u32, reply: seq<byte>) returns (valid: bool)
    ensures valid <==> AnswersTo(hwaddr, xid, reply)
  {
    if phase.Selecting? {
      DiscoverReply(hwaddr, xid, reply);
      valid := IsValidReply(DiscoverMsg(hwaddr, xid), reply);
    } else {
      RequestReply(hwaddr, xid, ZERO4, ZERO4, reply);
      valid := IsValidReply(RequestMsg(hwaddr, xid, ZERO4, ZERO4), reply);
    }
  }
}
