/**
 * The length fields that `receive_packet` trusts: it never compares the UDP length with the size of its structure
 * or with the IP length that bounds the checksum.
 */
module PacketLengths {
  import opened Bits
  import opened PacketModel

  /** Both checksum tests and the tests on the headers are passed. */
  ghost predicate Passes(mem: seq<byte>, nread: int)
    requires |mem| == PACKET_SIZE && nread <= PACKET_SIZE
  {
    HeaderValid(mem, nread) && Word(mem[26], mem[27]) == ExpectedUdpCheck(mem, Word16(mem, 2))
  }

  /** A packet that passes the tests is copied inside the structure exactly when its UDP length is 8 to 1268. */
  lemma {:induction false} OverrunExact(mem: seq<byte>, nread: int)
    requires |mem| == PACKET_SIZE && nread <= PACKET_SIZE
    ensures Receive(mem, nread) == Overrun <==>
              Passes(mem, nread) && !(8 <= Word16(mem, 24) <= 8 + DHCP_MSG_SIZE)
    ensures Receive(mem, nread) == Rejected <==> !Passes(mem, nread)
  {}

  // ----- packets that pass the tests with any UDP length

  function HeaderOnlyIp(saddr: seq<byte>, daddr: seq<byte>): (h: seq<byte>)
    requires |saddr| == 4 && |daddr| == 4
    ensures |h| == IP_HEADER
  {
    IpHeader(HEADERS, Le16(IpCheck(HEADERS, saddr, daddr)), saddr, daddr)
  }

  /** A structure that holds the two headers, with the UDP length `len` and the UDP checksum `check`, and `rest`. */
  function HeaderOnlyPacket(saddr: seq<byte>, daddr: seq<byte>, sport: nat, len: nat, check: nat, rest: seq<byte>)
    : (m: seq<byte>)
    requires |saddr| == 4 && |daddr| == 4 && |rest| == DHCP_MSG_SIZE
    ensures |m| == PACKET_SIZE
  {
    HeaderOnlyIp(saddr, daddr) + UdpHeader(sport, PORT_BOOTP_CLIENT, len, Le16(check)) + rest
  }

  /** The checksum that the receiver computes over the 28 bytes of the headers. */
  function HeaderOnlyCheck(saddr: seq<byte>, daddr: seq<byte>, sport: nat, len: nat, rest: seq<byte>): nat
    requires |saddr| == 4 && |daddr| == 4 && |rest| == DHCP_MSG_SIZE
  {
    ExpectedUdpCheck(HeaderOnlyPacket(saddr, daddr, sport, len, 0, rest), HEADERS)
  }

  lemma {:induction false} HeaderOnlyFields(m: seq<byte>, ip: seq<byte>, udp: seq<byte>, rest: seq<byte>,
                                            saddr: seq<byte>, daddr: seq<byte>, sport: nat, len: nat, check: nat)
    requires |saddr| == 4 && |daddr| == 4 && |rest| == DHCP_MSG_SIZE && ip == HeaderOnlyIp(saddr, daddr)
    requires udp == UdpHeader(sport, PORT_BOOTP_CLIENT, len, Le16(check)) && m == ip + udp + rest
    requires len < 65536 && check < 65536
    ensures m[..20] == ip && m[20..28] == udp && m[28..] == rest
    ensures m[22..24] == Be16(PORT_BOOTP_CLIENT) && Word16(m, 24) == len && Word(m[26], m[27]) == check
  {
    UdpFields(udp, sport, PORT_BOOTP_CLIENT, len, Le16(check));
    UdpBytes(udp, sport, PORT_BOOTP_CLIENT, len, check);
    assert m[22..24] == udp[2..4];
    assert m[24] == udp[4] && m[25] == udp[5] && m[26] == udp[6] && m[27] == udp[7];
  }

  lemma {:induction false} HeaderOnlyHeader(m: seq<byte>, saddr: seq<byte>, daddr: seq<byte>)
    requires |saddr| == 4 && |daddr| == 4 && |m| == PACKET_SIZE && m[..20] == HeaderOnlyIp(saddr, daddr)
    requires m[22..24] == Be16(PORT_BOOTP_CLIENT)
    ensures HeaderValid(m, HEADERS) && Word16(m, 2) == HEADERS
  {
    IpFields(m[..20], HEADERS, Le16(IpCheck(HEADERS, saddr, daddr)), saddr, daddr);
    IpCheckValidates(HEADERS, saddr, daddr);
    assert m[2] == m[..20][2..4][0] && m[3] == m[..20][2..4][1] && m[9] == m[..20][9] && m[0] == m[..20][0];
    Be16RoundTrip(HEADERS);
  }

  /** The checksum field itself plays no part in the sum. */
  lemma {:induction false} CheckIrrelevant(m: seq<byte>, m': seq<byte>)
    requires |m| == |m'| == PACKET_SIZE && m[..26] == m'[..26] && m[28..] == m'[28..]
    ensures PseudoPacket(m) == PseudoPacket(m')
  {
    assert m[24..26] == m[..26][24..26] && m'[24..26] == m'[..26][24..26];
    assert m[12..16] == m[..26][12..16] && m'[12..16] == m'[..26][12..16];
    assert m[16..20] == m[..26][16..20] && m'[16..20] == m'[..26][16..20];
    assert m[20..26] == m[..26][20..26] && m'[20..26] == m'[..26][20..26];
  }

  lemma {:induction false} HeaderOnlySum(saddr: seq<byte>, daddr: seq<byte>, sport: nat, len: nat, check: nat,
                                         rest: seq<byte>)
    requires |saddr| == 4 && |daddr| == 4 && |rest| == DHCP_MSG_SIZE
    ensures ExpectedUdpCheck(HeaderOnlyPacket(saddr, daddr, sport, len, check, rest), HEADERS) ==
            HeaderOnlyCheck(saddr, daddr, sport, len, rest)
  {
    var m := HeaderOnlyPacket(saddr, daddr, sport, len, check, rest);
    var m' := HeaderOnlyPacket(saddr, daddr, sport, len, 0, rest);
    var ip, front := HeaderOnlyIp(saddr, daddr), Be16(sport) + Be16(PORT_BOOTP_CLIENT) + Be16(len);
    assert m[..26] == ip + front && m'[..26] == ip + front;
    assert m[28..] == rest && m'[28..] == rest;
    CheckIrrelevant(m, m');
  }

  /**
   * For any addresses, source port, UDP length and following bytes, 28 bytes can be sent that pass every test: the
   * receiver then returns as many of the following bytes as the UDP length says, none of them covered by the
   * checksum, or copies outside its structure.
   */
  lemma {:induction false} HeaderOnlyReceived(saddr: seq<byte>, daddr: seq<byte>, sport: nat, len: nat, rest: seq<byte>)
    requires |saddr| == 4 && |daddr| == 4 && |rest| == DHCP_MSG_SIZE && len < 65536
    ensures var m := HeaderOnlyPacket(saddr, daddr, sport, len, HeaderOnlyCheck(saddr, daddr, sport, len, rest), rest);
            Receive(m, HEADERS) == if 8 <= len <= 8 + DHCP_MSG_SIZE then Accepted(rest[..len - 8]) else Overrun
  {
    var check := HeaderOnlyCheck(saddr, daddr, sport, len, rest);
    var ip, udp := HeaderOnlyIp(saddr, daddr), UdpHeader(sport, PORT_BOOTP_CLIENT, len, Le16(check));
    var m := HeaderOnlyPacket(saddr, daddr, sport, len, check, rest);
    CheckInRange(HeaderOnlyPacket(saddr, daddr, sport, len, 0, rest), HEADERS);
    HeaderOnlyFields(m, ip, udp, rest, saddr, daddr, sport, len, check);
    HeaderOnlyHeader(m, saddr, daddr);
    HeaderOnlySum(saddr, daddr, sport, len, check, rest);
    if 8 <= len <= 8 + DHCP_MSG_SIZE {
      assert m[HEADERS..HEADERS + (len - 8)] == m[HEADERS..][..len - 8];
    }
  }

  lemma {:induction false} CheckInRange(m: seq<byte>, n: nat)
    requires |m| == PACKET_SIZE && n <= PACKET_SIZE
    ensures ExpectedUdpCheck(m, n) < 65536
  {}

  /** In particular a UDP length of zero makes the copy leave the structure. */
  lemma {:induction false} ZeroLengthOverruns(saddr: seq<byte>, daddr: seq<byte>, sport: nat, rest: seq<byte>)
    requires |saddr| == 4 && |daddr| == 4 && |rest| == DHCP_MSG_SIZE
    ensures var m := HeaderOnlyPacket(saddr, daddr, sport, 0, HeaderOnlyCheck(saddr, daddr, sport, 0, rest), rest);
            Receive(m, HEADERS) == Overrun
  {
    HeaderOnlyReceived(saddr, daddr, sport, 0, rest);
  }

  // ----- what the checksum covers

  function Max(a: nat, b: nat): nat {
    if a < b then b else a
  }

  /** The result does not depend on anything behind the first `n` bytes. */
  ghost predicate Determined(mem: seq<byte>, n: nat, nread: int)
    requires |mem| == PACKET_SIZE && nread <= PACKET_SIZE && n <= PACKET_SIZE
  {
    forall other: seq<byte> :: |other| == PACKET_SIZE && other[..n] == mem[..n] ==>
      Receive(other, nread) == Receive(mem, nread)
  }

  lemma {:induction false} SameFront(mem: seq<byte>, other: seq<byte>, n: nat, i: nat, j: nat)
    requires |mem| == |other| && i <= j <= n <= |mem| && other[..n] == mem[..n]
    ensures other[i..j] == mem[i..j]
  {
    assert other[i..j] == other[..n][i..j] && mem[i..j] == mem[..n][i..j];
  }

  lemma {:induction false} SameBytes(mem: seq<byte>, other: seq<byte>, n: nat)
    requires |mem| == |other| && n <= |mem| && other[..n] == mem[..n]
    ensures forall i :: 0 <= i < n ==> other[i] == mem[i]
  {
    forall i | 0 <= i < n ensures other[i] == mem[i] {
      assert other[..n][i] == other[i] && mem[..n][i] == mem[i];
    }
  }

  /** The tests read the headers and the bytes up to the IP length only. */
  lemma {:induction false} SameSum(mem: seq<byte>, other: seq<byte>, n: nat, tot: nat)
    requires |mem| == |other| == PACKET_SIZE && HEADERS <= n <= PACKET_SIZE && tot <= n && other[..n] == mem[..n]
    ensures ExpectedUdpCheck(other, tot) == ExpectedUdpCheck(mem, tot)
  {
    SameFront(mem, other, n, 24, 26);
    SameFront(mem, other, n, 12, 16);
    SameFront(mem, other, n, 16, 20);
    SameFront(mem, other, n, 20, 26);
    SameFront(mem, other, n, 28, n);
    var h := PseudoHeader(mem) + mem[20..26] + [0, 0];
    CutBehind(h, mem, n, tot);
    CutBehind(h, other, n, tot);
  }

  lemma {:induction false} CutBehind(h: seq<byte>, mem: seq<byte>, n: nat, tot: nat)
    requires |mem| == PACKET_SIZE && |h| == HEADERS <= n <= PACKET_SIZE && tot <= n
    ensures (h + mem[28..])[..tot] == (h + mem[28..n])[..tot]
  {}

  lemma {:induction false} SamePasses(mem: seq<byte>, other: seq<byte>, n: nat, nread: int)
    requires |mem| == |other| == PACKET_SIZE && nread <= PACKET_SIZE && n <= PACKET_SIZE
    requires other[..n] == mem[..n] && n == Max(HEADERS, Word16(mem, 2)) && Passes(mem, nread)
    ensures Passes(other, nread) && Word16(other, 24) == Word16(mem, 24)
  {
    SameBytes(mem, other, n);
    SameFront(mem, other, n, 0, 20);
    assert mem[0..20] == mem[..20] && other[0..20] == other[..20];
    SameFront(mem, other, n, 22, 24);
    SameSum(mem, other, n, Word16(mem, 2));
  }

  /**
   * An accepted payload ends at `Word16(mem, 24) + 20`. It is determined by the bytes that the tests cover exactly
   * when it is empty or ends inside the IP length; otherwise bytes that no checksum covers are returned.
   */
  lemma {:induction false} CoverageExact(mem: seq<byte>, nread: int, n: nat)
    requires |mem| == PACKET_SIZE && nread <= PACKET_SIZE && Receive(mem, nread).Accepted?
    requires n == Max(HEADERS, Word16(mem, 2))
    ensures n <= PACKET_SIZE && HEADERS + |Receive(mem, nread).payload| == Word16(mem, 24) + 20
    ensures Determined(mem, n, nread) <==> Word16(mem, 24) == 8 || Word16(mem, 24) + 20 <= Word16(mem, 2)
  {
    var end := Word16(mem, 24) + 20;
    if end == HEADERS || end <= Word16(mem, 2) {
      forall other: seq<byte> | |other| == PACKET_SIZE && other[..n] == mem[..n]
        ensures Receive(other, nread) == Receive(mem, nread)
      {
        SamePasses(mem, other, n, nread);
        SameFront(mem, other, n, HEADERS, end);
      }
    } else {
      var other := mem[n := if mem[n] == 0 then 1 else 0];
      SamePasses(mem, other, n, nread);
      assert Receive(other, nread).payload[n - HEADERS] == other[n] != mem[n];
      assert Receive(mem, nread).payload[n - HEADERS] == mem[n];
    }
  }
}
