/** What `decode_dhcp_msg` makes of a list of options (section 2 of RFC 2132). */
module DhcpOptions {
  import opened Common
  import opened Bits
  import opened DhcpClientModel

  datatype DhcpOption = Pad | Code(code: byte, body: seq<byte>)

  type Options = seq<DhcpOption>

  /** What the standard asks for: a length that fits its byte, and a message type that is there. */
  predicate WellFormed(o: DhcpOption) {
    o.Code? ==>
      && o.code != OPT_PAD && o.code != OPT_END && |o.body| < 256
      && (o.code == OPT_MESSAGE_TYPE ==> |o.body| >= 1)
  }

  ghost predicate AllWellFormed(opts: Options) {
    forall i :: 0 <= i < |opts| ==> WellFormed(opts[i])
  }

  function Encode(o: DhcpOption): seq<byte>
    requires WellFormed(o)
  {
    if o.Pad? then [OPT_PAD] else [o.code, |o.body|] + o.body
  }

  function EncodeAll(opts: Options): seq<byte>
    requires AllWellFormed(opts)
  {
    if opts == [] then [] else Encode(opts[0]) + EncodeAll(opts[1..])
  }

  /** The body of the last option of a kind with at least `n` bytes. */
  function Last(opts: Options, code: byte, n: nat): (r: Option<seq<byte>>)
    ensures r.Some? ==> |r.value| >= n
  {
    if opts == [] then None
    else if Last(opts[1..], code, n).Some? then Last(opts[1..], code, n)
    else if opts[0].Code? && opts[0].code == code && |opts[0].body| >= n then Some(opts[0].body)
    else None
  }

  /** Four bytes of the last option of a kind, from `at` on, or what was there before. */
  function Field(opts: Options, code: byte, at: nat, before: Bytes4): Bytes4 {
    var b := Last(opts, code, at + 4);
    if b.None? then before else b.value[at..at + 4]
  }

  function LastType(opts: Options, before: byte): byte {
    var b := Last(opts, OPT_MESSAGE_TYPE, 1);
    if b.None? then before else b.value[0]
  }

  /** `r` holds the last option of each kind, and where there is none what `info` holds. */
  ghost predicate Yields(opts: Options, info: Info, r: Info) {
    && r.typ == LastType(opts, info.typ)
    && r.mask == Field(opts, OPT_SUBNET_MASK, 0, info.mask)
    && r.gateway == Field(opts, OPT_GATEWAY, 0, info.gateway)
    && r.dns1 == Field(opts, OPT_DNS, 0, info.dns1)
    && r.dns2 == Field(opts, OPT_DNS, 4, info.dns2)
    && r.lease == Field(opts, OPT_LEASE_TIME, 0, info.lease)
    && r.server == Field(opts, OPT_SERVER_ID, 0, info.server)
    && r.ipaddr == info.ipaddr
  }

  /** Nothing more is read: the end option, too few bytes for another one, or one that is cut off. */
  predicate EndsOptions(tail: seq<byte>) {
    |tail| <= 2 || tail[0] == OPT_END || (tail[0] != OPT_PAD && tail[1] > |tail| - 2)
  }

  /** What one option does to the record. */
  function Applied(o: DhcpOption, info: Info): Info
    requires WellFormed(o)
  {
    if o.Pad? || |o.body| == 0 then info else ApplyOption([o.code, |o.body|] + o.body, |o.body|, info)
  }

  lemma {:induction false} LastOfOne(o: DhcpOption, code: byte, n: nat)
    ensures Last([o], code, n) == if o.Code? && o.code == code && |o.body| >= n then Some(o.body) else None
  {
    assert Last([o][1..], code, n) == None;
  }

  lemma {:induction false} AppliedYields(o: DhcpOption, info: Info)
    requires WellFormed(o)
    ensures Yields([o], info, Applied(o, info))
  {
    LastOfOne(o, OPT_MESSAGE_TYPE, 1);
    LastOfOne(o, OPT_SUBNET_MASK, 4);
    LastOfOne(o, OPT_GATEWAY, 4);
    LastOfOne(o, OPT_DNS, 4);
    LastOfOne(o, OPT_DNS, 8);
    LastOfOne(o, OPT_LEASE_TIME, 4);
    LastOfOne(o, OPT_SERVER_ID, 4);
    if o.Code? {
      var x := [o.code, |o.body|] + o.body;
      if |o.body| >= 4 {
        assert x[2..6] == o.body[0..4];
      }
      if |o.body| >= 8 {
        assert x[6..10] == o.body[4..8];
      }
    }
  }

  lemma {:induction false} LastOfMore(o: DhcpOption, opts: Options, code: byte, n: nat)
    ensures Last([o] + opts, code, n) == if Last(opts, code, n).Some? then Last(opts, code, n) else Last([o], code, n)
  {
    assert ([o] + opts)[1..] == opts;
  }

  lemma {:induction false} YieldsMore(o: DhcpOption, opts: Options, info: Info, mid: Info, r: Info)
    requires Yields([o], info, mid) && Yields(opts, mid, r)
    ensures Yields([o] + opts, info, r)
  {
    LastOfMore(o, opts, OPT_MESSAGE_TYPE, 1);
    LastOfMore(o, opts, OPT_SUBNET_MASK, 4);
    LastOfMore(o, opts, OPT_GATEWAY, 4);
    LastOfMore(o, opts, OPT_DNS, 4);
    LastOfMore(o, opts, OPT_DNS, 8);
    LastOfMore(o, opts, OPT_LEASE_TIME, 4);
    LastOfMore(o, opts, OPT_SERVER_ID, 4);
  }

  /** The cursor takes the first option off and goes on behind it. */
  lemma {:induction false} FirstOption(o: DhcpOption, x: seq<byte>, rest: seq<byte>, info: Info)
    requires WellFormed(o) && x == Encode(o) + rest
    ensures DecodeOptions(x, info) == DecodeOptions(rest, Applied(o, info))
  {
    if o.Pad? {
      assert x[1..] == rest;
    } else {
      var n := |o.body|;
      assert x[0] == o.code && x[1] == n && x[2 + n..] == rest;
      if n == 0 {
        assert |x| > 2 ==> ApplyOption(x, 0, info) == info;
      } else {
        SameOption(o, x, rest, info);
      }
    }
  }

  lemma {:induction false} SameOption(o: DhcpOption, x: seq<byte>, rest: seq<byte>, info: Info)
    requires WellFormed(o) && o.Code? && |o.body| > 0 && x == Encode(o) + rest
    ensures ApplyOption(x, |o.body|, info) == Applied(o, info)
  {
    var y := [o.code, |o.body|] + o.body;
    assert x[..|y|] == y;
    if |o.body| >= 4 {
      assert x[2..6] == y[2..6];
    }
    if |o.body| >= 8 {
      assert x[6..10] == y[6..10];
    }
  }

  /** Decoding any list of well-formed options takes the last one of each kind. */
  lemma {:induction false} DecodesOptions(opts: Options, tail: seq<byte>, info: Info)
    requires AllWellFormed(opts) && EndsOptions(tail)
    ensures Yields(opts, info, DecodeOptions(EncodeAll(opts) + tail, info))
    decreases opts
  {
    if opts == [] {
      assert EncodeAll(opts) + tail == tail;
    } else {
      var o, more := opts[0], opts[1..];
      var rest := EncodeAll(more) + tail;
      assert EncodeAll(opts) + tail == Encode(o) + rest;
      FirstOption(o, EncodeAll(opts) + tail, rest, info);
      AppliedYields(o, info);
      DecodesOptions(more, tail, Applied(o, info));
      YieldsMore(o, more, info, Applied(o, info), DecodeOptions(rest, Applied(o, info)));
      assert [o] + more == opts;
    }
  }

  /** A message with the cookie and well-formed options decodes to its address and the last option of each kind. */
  lemma {:induction false} DecodesMessage(fixed: seq<byte>, opts: Options, tail: seq<byte>)
    requires |fixed| == DHCP_MSG_FIXED_SIZE && AllWellFormed(opts) && EndsOptions(tail)
    ensures Yields(opts, NO_INFO.(ipaddr := fixed[16..20]), Decode(fixed + COOKIE + (EncodeAll(opts) + tail)))
  {
    var m := fixed + COOKIE + (EncodeAll(opts) + tail);
    assert m[236..240] == COOKIE && m[240..] == EncodeAll(opts) + tail && m[16..20] == fixed[16..20];
    DecodesOptions(opts, tail, NO_INFO);
  }

  /** A message type without a body. */
  predicate EmptyType(tail: seq<byte>) {
    |tail| > 2 && tail[0] == OPT_MESSAGE_TYPE && tail[1] == 0
  }

  /** Whatever follows the cookie is well-formed options and a tail that ends them or an empty message type. */
  lemma {:induction false} EveryText(x: seq<byte>) returns (opts: Options, tail: seq<byte>)
    ensures AllWellFormed(opts) && x == EncodeAll(opts) + tail && (EndsOptions(tail) || EmptyType(tail))
    decreases |x|
  {
    if EndsOptions(x) || EmptyType(x) {
      opts, tail := [], x;
    } else {
      var o, n := FirstOfText(x);
      var more;
      more, tail := EveryText(x[n..]);
      opts := [o] + more;
      Prepended(o, more, x[..n], x[n..], tail);
      assert x == x[..n] + x[n..];
    }
  }

  lemma {:induction false} FirstOfText(x: seq<byte>) returns (o: DhcpOption, n: nat)
    requires !EndsOptions(x) && !EmptyType(x)
    ensures WellFormed(o) && 0 < n <= |x| && Encode(o) == x[..n]
  {
    if x[0] == OPT_PAD {
      o, n := Pad, 1;
    } else {
      var len: nat := x[1];
      n := 2 + len;
      o := Code(x[0], x[2..n]);
    }
  }

  lemma {:induction false} Prepended(o: DhcpOption, more: Options, a: seq<byte>, b: seq<byte>, tail: seq<byte>)
    requires WellFormed(o) && AllWellFormed(more) && a == Encode(o) && b == EncodeAll(more) + tail
    ensures AllWellFormed([o] + more) && a + b == EncodeAll([o] + more) + tail
  {
    assert ([o] + more)[1..] == more;
    assert a + b == a + EncodeAll(more) + tail;
  }

  /** An empty message type takes the next byte for its body, which is then read as an option too. */
  lemma {:induction false} EmptyTypeReads(tail: seq<byte>, info: Info)
    requires EmptyType(tail)
    ensures DecodeOptions(tail, info) == DecodeOptions(tail[2..], info.(typ := tail[2]))
  {}

  /** A message that is too short for the cookie, or has another one, says nothing, whatever its address. */
  lemma {:induction false} NoCookie(msg: seq<byte>)
    requires |msg| < 240 || msg[236..240] != [99, 130, 83, 99]
    ensures Decode(msg) == NO_INFO
  {}

  // ----- the client's own messages

  function RequestOptions(ipaddr: Bytes4, server: Bytes4): Options {
    [Code(OPT_MESSAGE_TYPE, [DHCPREQUEST]), Code(OPT_PARAMETER_LIST, PARAMETERS[2..]),
     Code(OPT_REQUESTED_IP, ipaddr), Code(OPT_SERVER_ID, server)]
  }

  lemma {:induction false} EncodeFour(a: DhcpOption, b: DhcpOption, c: DhcpOption, d: DhcpOption)
    requires WellFormed(a) && WellFormed(b) && WellFormed(c) && WellFormed(d)
    ensures EncodeAll([a, b, c, d]) == Encode(a) + (Encode(b) + (Encode(c) + (Encode(d) + [])))
  {
    assert [a, b, c, d][1..] == [b, c, d] && [b, c, d][1..] == [c, d] && [c, d][1..] == [d] && [d][1..] == [];
    assert EncodeAll([b, c, d]) == Encode(b) + EncodeAll([c, d]);
    assert EncodeAll([c, d]) == Encode(c) + EncodeAll([d]);
    assert EncodeAll([d]) == Encode(d) + EncodeAll([]);
  }

  lemma {:induction false} LastOfFour(a: DhcpOption, b: DhcpOption, c: DhcpOption, d: DhcpOption, code: byte, n: nat)
    ensures var l := Last([a, b, c, d], code, n);
            l == if Last([d], code, n).Some? then Last([d], code, n)
                 else if Last([c], code, n).Some? then Last([c], code, n)
                 else if Last([b], code, n).Some? then Last([b], code, n)
                 else Last([a], code, n)
  {
    assert [a, b, c, d] == [a] + [b, c, d] && [b, c, d] == [b] + [c, d] && [c, d] == [c] + [d];
    LastOfMore(a, [b, c, d], code, n);
    LastOfMore(b, [c, d], code, n);
    LastOfMore(c, [d], code, n);
  }

  lemma {:induction false} LastRequested(ipaddr: Bytes4, server: Bytes4, code: byte, n: nat)
    ensures var l := Last(RequestOptions(ipaddr, server), code, n);
            && (code == OPT_SERVER_ID && n == 4 ==> l == Some(server))
            && (code == OPT_MESSAGE_TYPE && n == 1 ==> l == Some([DHCPREQUEST]))
            && (code in {OPT_SUBNET_MASK, OPT_GATEWAY, OPT_DNS, OPT_LEASE_TIME} ==> l == None)
  {
    var o := RequestOptions(ipaddr, server);
    LastOfFour(o[0], o[1], o[2], o[3], code, n);
    LastOfOne(o[0], code, n);
    LastOfOne(o[1], code, n);
    LastOfOne(o[2], code, n);
    LastOfOne(o[3], code, n);
  }

  lemma {:induction false} RequestText(hwaddr: HwAddr, xid: u32, ipaddr: Bytes4, server: Bytes4)
    ensures AllWellFormed(RequestOptions(ipaddr, server))
    ensures RequestMsg(hwaddr, xid, ipaddr, server) ==
            FixedPart(hwaddr, xid) + COOKIE + (EncodeAll(RequestOptions(ipaddr, server)) + [OPT_END])
  {
    var o := RequestOptions(ipaddr, server);
    EncodeFour(o[0], o[1], o[2], o[3]);
    assert Encode(o[0]) == [OPT_MESSAGE_TYPE, 1, DHCPREQUEST] && Encode(o[1]) == PARAMETERS;
  }

  /** A REQUEST says what it is and which server it is for. */
  lemma {:induction false} DecodesRequest(hwaddr: HwAddr, xid: u32, ipaddr: Bytes4, server: Bytes4)
    ensures Decode(RequestMsg(hwaddr, xid, ipaddr, server)) == NO_INFO.(typ := DHCPREQUEST, server := server)
  {
    var fixed := FixedPart(hwaddr, xid);
    RequestText(hwaddr, xid, ipaddr, server);
    assert fixed[16..20] == ZERO4;
    DecodesMessage(fixed, RequestOptions(ipaddr, server), [OPT_END]);
    LastRequested(ipaddr, server, OPT_MESSAGE_TYPE, 1);
    LastRequested(ipaddr, server, OPT_SERVER_ID, 4);
    LastRequested(ipaddr, server, OPT_SUBNET_MASK, 4);
    LastRequested(ipaddr, server, OPT_GATEWAY, 4);
    LastRequested(ipaddr, server, OPT_DNS, 4);
    LastRequested(ipaddr, server, OPT_DNS, 8);
    LastRequested(ipaddr, server, OPT_LEASE_TIME, 4);
  }

  function LittleEndian(a: int, b: int, c: int, d: int): int {
    a + 0x100 * b + 0x1_0000 * c + 0x100_0000 * d
  }

  /** The fixed part of both messages, field by field (section 2 of RFC 2131); the broadcast flag is set. */
  lemma {:induction false} FixedLayout(hwaddr: HwAddr, xid: u32, f: seq<byte>)
    requires f == FixedPart(hwaddr, xid)
    ensures |f| == 236 && f[..4] == [1, 1, 6, 0]
    ensures LittleEndian(f[4], f[5], f[6], f[7]) == xid
    ensures f[8..12] == [0, 0, 0x80, 0] && f[28..34] == hwaddr
    ensures forall i :: 12 <= i < 28 || 34 <= i < 236 ==> f[i] == 0
  {
    var x := Le32(xid);
    LittleEndianXid(xid);
    assert f[4..8] == x;
    assert f[4] == f[4..8][0] && f[5] == f[4..8][1] && f[6] == f[4..8][2] && f[7] == f[4..8][3];
    FixedFields(hwaddr, xid, []);
    assert f + [] == f;
  }

  lemma {:induction false} LittleEndianXid(xid: u32)
    ensures var x := Le32(xid); LittleEndian(x[0], x[1], x[2], x[3]) == xid
  {
    var low, middle, high := xid / 0x100, xid / 0x1_0000, xid / 0x100_0000;
    LowByte(xid, low);
    LowByte(low, middle);
    LowByte(middle, high);
  }

  lemma {:induction false} LowByte(x: nat, q: nat)
    requires 0x100 * q <= x < 0x100 * q + 0x100
    ensures x % 0x100 == x - 0x100 * q
  {}

  /** The options of a DISCOVER and of a REQUEST, byte by byte (RFC 2132). */
  lemma {:induction false} OptionLayout(hwaddr: HwAddr, xid: u32, ipaddr: Bytes4, server: Bytes4)
    ensures var d := DiscoverMsg(hwaddr, xid);
            |d| == 250 && d[..236] == FixedPart(hwaddr, xid) &&
            d[236..] == [99, 130, 83, 99, 53, 1, 1, 55, 4, 1, 3, 6, 28, 255]
    ensures var r := RequestMsg(hwaddr, xid, ipaddr, server);
            |r| == 262 && r[..236] == FixedPart(hwaddr, xid) &&
            r[236..251] == [99, 130, 83, 99, 53, 1, 3, 55, 4, 1, 3, 6, 28, 50, 4] &&
            r[251..255] == ipaddr && r[255..257] == [54, 4] && r[257..261] == server && r[261] == 255
  {
    var f := FixedPart(hwaddr, xid);
    var d, r := DiscoverMsg(hwaddr, xid), RequestMsg(hwaddr, xid, ipaddr, server);
    assert d == f + [99, 130, 83, 99, 53, 1, 1, 55, 4, 1, 3, 6, 28, 255];
    assert r == f + ([99, 130, 83, 99, 53, 1, 3, 55, 4, 1, 3, 6, 28, 50, 4] + ipaddr + ([54, 4] + server + [255]));
  }

  /** A DISCOVER says what it is and nothing else. */
  lemma {:induction false} DecodesDiscover(hwaddr: HwAddr, xid: u32)
    ensures Decode(DiscoverMsg(hwaddr, xid)) == NO_INFO.(typ := DHCPDISCOVER)
  {
    var fixed, o := FixedPart(hwaddr, xid), Code(OPT_MESSAGE_TYPE, [DHCPDISCOVER]);
    var p := Code(OPT_PARAMETER_LIST, PARAMETERS[2..]);
    assert fixed[16..20] == ZERO4;
    assert EncodeAll([p]) == Encode(p) + EncodeAll([]) && [o, p][1..] == [p];
    assert Encode(o) == [OPT_MESSAGE_TYPE, 1, DHCPDISCOVER] && Encode(p) == PARAMETERS;
    assert DiscoverMsg(hwaddr, xid) == fixed + COOKIE + (EncodeAll([o, p]) + [OPT_END]);
    DecodesMessage(fixed, [o, p], [OPT_END]);
    LastOfDiscover(o, p, OPT_MESSAGE_TYPE, 1);
    LastOfDiscover(o, p, OPT_SERVER_ID, 4);
    LastOfDiscover(o, p, OPT_SUBNET_MASK, 4);
    LastOfDiscover(o, p, OPT_GATEWAY, 4);
    LastOfDiscover(o, p, OPT_DNS, 4);
    LastOfDiscover(o, p, OPT_DNS, 8);
    LastOfDiscover(o, p, OPT_LEASE_TIME, 4);
  }

  lemma {:induction false} LastOfDiscover(o: DhcpOption, p: DhcpOption, code: byte, n: nat)
    ensures Last([o, p], code, n) == if Last([p], code, n).Some? then Last([p], code, n) else Last([o], code, n)
  {
    assert [o, p] == [o] + [p];
    LastOfMore(o, [p], code, n);
  }
}
