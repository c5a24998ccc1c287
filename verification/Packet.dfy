/**
 * Building and validating the UDP/IP packets of the DHCP client on a little-endian host: Internet
 * checksums (RFC 1071) over 32-bit accumulators, and the round trip from `send_packet` to
 * `receive_packet`.
 */
module PacketModel {
  import opened Bits

  const IP_HEADER := 20
  const HEADERS := 28
  const DHCP_MSG_SIZE := 1260               // sizeof(struct dhcp_msg)
  const PACKET_SIZE := HEADERS + DHCP_MSG_SIZE
  const IPPROTO_UDP: byte := 17
  const IPDEFTTL: byte := 64
  const PORT_BOOTP_CLIENT := 68

  /** A 16-bit word in network order. */
  function Be16(x: nat): (r: seq<byte>)
    ensures |r| == 2
  {
    [x / 256 % 256, x % 256]
  }

  /** A 16-bit word as the host stores it. */
  function Le16(x: nat): (r: seq<byte>)
    ensures |r| == 2
  {
    [x % 256, x / 256 % 256]
  }

  /** The value of a byte pair whose first byte is the low one. */
  function Word(lo: int, hi: int): int {
    lo + 256 * hi
  }

  // ----- checksums

  /** The sum of the little-endian 16-bit words of `b`; an odd last byte counts as a word of its own. */
  function WordSum(b: seq<byte>): nat {
    if |b| == 0 then 0 else if |b| == 1 then b[0] else Word(b[0], b[1]) + WordSum(b[2..])
  }

  /** The representative in 0..65535 of a sum modulo 65535; zero only for zero. */
  function Folded(x: nat): (r: nat)
    ensures r <= 65535
  {
    if x <= 65535 then x else Folded(x - 65535)
  }

  /** A sum in a 32-bit accumulator. */
  function Wrapped(x: nat): (r: nat)
    ensures r < TWO_32
  {
    if x < TWO_32 then x else Wrapped(x - TWO_32)
  }

  function Checksum(b: seq<byte>, startsum: nat): (r: nat)
    ensures r <= 65535
  {
    Accumulate(startsum, WordSum(b))
  }

  function Accumulate(startsum: nat, words: nat): (r: nat)
    ensures r <= 65535
  {
    Folded(Wrapped(startsum + words))
  }

  /** `~sum & 0xffff` for a folded sum. */
  function FinishSum(sum: nat): nat
    requires sum <= 65535
  {
    65535 - sum
  }

  lemma {:induction false} WordSumAppendWord(b: seq<byte>, x: byte, y: byte)
    requires |b| % 2 == 0
    ensures WordSum(b + [x, y]) == WordSum(b) + Word(x, y)
  {
    if b == [] {
      assert (b + [x, y])[2..] == [];
    } else {
      assert (b + [x, y])[2..] == b[2..] + [x, y];
      WordSumAppendWord(b[2..], x, y);
    }
  }

  lemma {:induction false} WordSumAppendByte(b: seq<byte>, x: byte)
    requires |b| % 2 == 0
    ensures WordSum(b + [x]) == WordSum(b) + x
  {
    if b != [] {
      assert (b + [x])[2..] == b[2..] + [x];
      WordSumAppendByte(b[2..], x);
    }
  }

  lemma {:induction false} WordSumConcat(a: seq<byte>, b: seq<byte>)
    requires |a| % 2 == 0
    ensures WordSum(a + b) == WordSum(a) + WordSum(b)
    decreases |a|
  {
    if a == [] {
      assert a + b == b;
    } else {
      assert (a + b)[2..] == a[2..] + b;
      WordSumConcat(a[2..], b);
    }
  }

  /** The sum of five pieces, the first four of even length. */
  lemma {:induction false} WordSumParts(a: seq<byte>, b: seq<byte>, c: seq<byte>, d: seq<byte>, e: seq<byte>)
    requires |a| % 2 == 0 && |b| % 2 == 0 && |c| % 2 == 0 && |d| % 2 == 0
    ensures WordSum(a + b + c + d + e) == WordSum(a) + WordSum(b) + WordSum(c) + WordSum(d) + WordSum(e)
  {
    WordSumConcat(a + b + c + d, e);
    WordSumConcat(a + b + c, d);
    WordSumConcat(a + b, c);
    WordSumConcat(a, b);
  }

  lemma {:induction false} WordSumBound(b: seq<byte>)
    ensures 2 * WordSum(b) <= 65535 * (|b| + 1)
    decreases |b|
  {
    if |b| > 1 {
      WordSumBound(b[2..]);
    }
  }

  /** The sum of the words before `up`, and of one more. */
  lemma {:induction false} NextWord(b: seq<byte>, startsum: nat, up: nat, sum: nat)
    requires up + 1 < |b| && up % 2 == 0 && sum == Wrapped(startsum + WordSum(b[..up]))
    ensures (sum + Word(b[up], b[up + 1])) % TWO_32 == Wrapped(startsum + WordSum(b[..up + 2]))
  {
    WordSumAppendWord(b[..up], b[up], b[up + 1]);
    assert b[..up + 2] == b[..up] + [b[up], b[up + 1]];
    AddWrapped(startsum + WordSum(b[..up]), Word(b[up], b[up + 1]));
  }

  lemma {:induction false} LastByte(b: seq<byte>, startsum: nat, up: nat, sum: nat)
    requires up + 1 == |b| && up % 2 == 0 && sum == Wrapped(startsum + WordSum(b[..up]))
    ensures (sum + b[up]) % TWO_32 == Wrapped(startsum + WordSum(b))
  {
    WordSumAppendByte(b[..up], b[up]);
    assert b == b[..up] + [b[up]];
    AddWrapped(startsum + WordSum(b[..up]), b[up]);
  }

  /** `checksum`: two updating loops over a 32-bit accumulator. */
  method ComputeChecksum(b: seq<byte>, startsum: u32) returns (sum: u32)
    ensures sum == Checksum(b, startsum)
    ensures sum <= 65535
  {
    sum := startsum;
    var up := 0;
    while |b| - up > 1
      invariant 0 <= up <= |b| && up % 2 == 0
      invariant sum == Wrapped(startsum + WordSum(b[..up]))
    {
      NextWord(b, startsum, up, sum);
      sum := (sum + Word(b[up], b[up + 1])) % TWO_32;
      up := up + 2;
    }
    if |b| - up > 0 {
      LastByte(b, startsum, up, sum);
      sum := (sum + b[up]) % TWO_32;
    } else {
      assert b == b[..up];
    }
    sum := FoldCarries(sum);
  }

  lemma {:induction false} AddWrapped(x: nat, y: nat)
    requires y < TWO_32
    ensures (Wrapped(x) + y) % TWO_32 == Wrapped(x + y)
  {
    if x >= TWO_32 {
      AddWrapped(x - TWO_32, y);
    }
  }

  /** The second loop of `checksum`. */
  method FoldCarries(start: u32) returns (sum: u32)
    ensures sum == Folded(start) <= 65535
  {
    sum := start;
    while sum / 65536 != 0
      invariant Folded(sum) == Folded(start)
      decreases sum
    {
      FoldOnce(sum);
      sum := sum % 65536 + sum / 65536;
    }
  }

  lemma {:induction false} FoldedShift(x: nat, q: nat)
    requires x > 0
    ensures Folded(x + 65535 * q) == Folded(x)
  {
    if q > 0 {
      FoldedShift(x, q - 1);
    }
  }

  /** One fold of the upper half keeps the sum modulo 65535, and never makes it zero. */
  lemma {:induction false} FoldOnce(x: nat)
    requires x >= 65536
    ensures 0 < x % 65536 + x / 65536 < x
    ensures Folded(x % 65536 + x / 65536) == Folded(x)
  {
    var h := x / 65536;
    assert x == (x % 65536 + h) + 65535 * h;
    FoldedShift(x % 65536 + h, h);
  }

  lemma {:induction false} FoldedAdd(x: nat, y: nat)
    ensures Folded(Folded(x) + y) == Folded(x + y)
    decreases x
  {
    if x > 65535 {
      FoldedAdd(x - 65535, y);
    }
  }

  /** A folded sum continues without overflow for as many bytes as a packet can have. */
  lemma {:induction false} ChecksumExact(b: seq<byte>, startsum: nat)
    requires |b| <= 65535 && startsum <= 65535
    ensures Checksum(b, startsum) == Folded(startsum + WordSum(b)) <= 65535
  {
    WordSumBound(b);
  }

  /** Chained partial sums equal the one-pass sum of the whole. */
  lemma {:induction false} ChecksumChain(a: seq<byte>, b: seq<byte>, startsum: nat)
    requires |a| % 2 == 0 && |a| + |b| <= 65535 && startsum <= 65535
    ensures Checksum(b, Checksum(a, startsum)) == Checksum(a + b, startsum)
  {
    ChecksumExact(a, startsum);
    ChecksumExact(b, Checksum(a, startsum));
    ChecksumExact(a + b, startsum);
    WordSumConcat(a, b);
    FoldedAdd(startsum + WordSum(a), WordSum(b));
  }

  /** Adding the complement of a non-zero sum gives all ones, whose complement is zero. */
  lemma {:induction false} ComplementCancels(x: nat)
    requires x > 0
    ensures Folded(x + FinishSum(Folded(x))) == 65535
  {
    if x > 65535 {
      ComplementCancels(x - 65535);
    }
  }

  // ----- send_packet

  function IpHeader(totLen: nat, check: seq<byte>, saddr: seq<byte>, daddr: seq<byte>): (r: seq<byte>)
    requires |check| == 2 && |saddr| == 4 && |daddr| == 4
    ensures |r| == IP_HEADER
  {
    [0x45, 0] + Be16(totLen) + [0, 0, 0, 0] + [IPDEFTTL, IPPROTO_UDP] + check + saddr + daddr
  }

  function UdpHeader(sport: nat, dport: nat, len: nat, check: seq<byte>): (r: seq<byte>)
    requires |check| == 2
    ensures |r| == 8
  {
    Be16(sport) + Be16(dport) + Be16(len) + check
  }

  /** The six chained sums of `send_packet` over the pseudo header, the UDP header and the data. */
  function UdpSum(payload: seq<byte>, saddr: seq<byte>, daddr: seq<byte>, sport: nat, dport: nat): nat {
    var len := 8 + |payload|;
    var s1 := Checksum(saddr, 0);
    var s2 := Checksum(daddr, s1);
    var s3 := Checksum(Be16(IPPROTO_UDP), s2);
    var s4 := Checksum(Be16(len), s3);
    var s5 := Checksum(UdpHeader(sport, dport, len, [0, 0]), s4);
    Checksum(payload, s5)
  }

  function IpCheck(totLen: nat, saddr: seq<byte>, daddr: seq<byte>): nat
    requires |saddr| == 4 && |daddr| == 4
  {
    FinishSum(Checksum(IpHeader(totLen, [0, 0], saddr, daddr), 0))
  }

  function UdpCheck(payload: seq<byte>, saddr: seq<byte>, daddr: seq<byte>, sport: nat, dport: nat): nat {
    FinishSum(UdpSum(payload, saddr, daddr, sport, dport))
  }

  function SentPacket(payload: seq<byte>, saddr: seq<byte>, daddr: seq<byte>, sport: nat, dport: nat): seq<byte>
    requires |saddr| == 4 && |daddr| == 4
  {
    var totLen := HEADERS + |payload|;
    IpHeader(totLen, Le16(IpCheck(totLen, saddr, daddr)), saddr, daddr) +
    UdpHeader(sport, dport, 8 + |payload|, Le16(UdpCheck(payload, saddr, daddr, sport, dport))) +
    payload
  }

  /** `send_packet` up to the call of `sendmsg`. */
  method SendPacket(payload: seq<byte>, saddr: seq<byte>, daddr: seq<byte>, sport: nat, dport: nat)
    returns (packet: seq<byte>)
    requires |saddr| == 4 && |daddr| == 4
    ensures packet == SentPacket(payload, saddr, daddr, sport, dport)
  {
    var totLen := HEADERS + |payload|;
    var ip := IpHeader(totLen, [0, 0], saddr, daddr);
    var ipsum := ComputeChecksum(ip, 0);
    ip := IpHeader(totLen, Le16(FinishSum(ipsum)), saddr, daddr);

    var udp := UdpHeader(sport, dport, 8 + |payload|, [0, 0]);
    var udpsum := ComputeChecksum(saddr, 0);
    udpsum := ComputeChecksum(daddr, udpsum);
    udpsum := ComputeChecksum(Be16(IPPROTO_UDP), udpsum);
    udpsum := ComputeChecksum(Be16(8 + |payload|), udpsum);
    udpsum := ComputeChecksum(udp, udpsum);
    udpsum := ComputeChecksum(payload, udpsum);
    udp := UdpHeader(sport, dport, 8 + |payload|, Le16(FinishSum(udpsum)));
    packet := ip + udp + payload;
  }

  // ----- receive_packet

  /** `Overrun` stands for a length field that sends the final copy outside the packet structure. */
  datatype Received = Rejected | Accepted(payload: seq<byte>) | Overrun

  function Word16(b: seq<byte>, i: nat): nat
    requires i + 1 < |b|
  {
    Word(b[i + 1], b[i])
  }

  /** The IP header after it has been reused as the pseudo header of the UDP checksum. */
  function PseudoHeader(mem: seq<byte>): (r: seq<byte>)
    requires |mem| >= HEADERS
    ensures |r| == IP_HEADER
  {
    [0, 0] + mem[24..26] + [0, 0, 0, 0] + [0, IPPROTO_UDP] + [0, 0] + mem[12..16] + mem[16..20]
  }

  /** The packet structure over which the receiver recomputes the UDP checksum. */
  function PseudoPacket(mem: seq<byte>): (r: seq<byte>)
    requires |mem| == PACKET_SIZE
    ensures |r| == PACKET_SIZE
  {
    PseudoHeader(mem) + mem[20..26] + [0, 0] + mem[28..]
  }

  predicate HeaderValid(mem: seq<byte>, nread: int)
    requires |mem| == PACKET_SIZE
  {
    && nread >= HEADERS
    && mem[0] == 0x45
    && nread >= Word16(mem, 2)
    && mem[9] == IPPROTO_UDP
    && mem[22..24] == Be16(PORT_BOOTP_CLIENT)
    && FinishSum(Checksum(mem[..20], 0)) == 0
  }

  /** The UDP checksum that `receive_packet` expects in a packet of `n` bytes. */
  function ExpectedUdpCheck(mem: seq<byte>, n: nat): nat
    requires |mem| == PACKET_SIZE && n <= PACKET_SIZE
  {
    var sum := FinishSum(Checksum(PseudoPacket(mem)[..n], 0));
    if sum == 0 then FinishSum(sum) else sum
  }

  /** `receive_packet` on the packet structure `mem`, of which `nread` bytes were read. */
  function Receive(mem: seq<byte>, nread: int): Received
    requires |mem| == PACKET_SIZE && nread <= PACKET_SIZE
  {
    if !HeaderValid(mem, nread) then Rejected
    else if Word(mem[26], mem[27]) != ExpectedUdpCheck(mem, Word16(mem, 2)) then Rejected
    else
      var size := Word16(mem, 24) - 8;
      if 0 <= size <= DHCP_MSG_SIZE then Accepted(mem[HEADERS..HEADERS + size]) else Overrun
  }

  /** The tests of `receive_packet` on the headers. */
  method CheckHeader(packet: array<byte>, nread: int) returns (ok: bool)
    requires packet.Length == PACKET_SIZE
    ensures ok == HeaderValid(packet[..], nread)
  {
    if nread < HEADERS || packet[0] != 0x45 || nread < Word(packet[3], packet[2]) {
      return false;
    }
    assert packet[..][22..24] == packet[22..24];
    if packet[9] != IPPROTO_UDP || packet[22..24] != Be16(PORT_BOOTP_CLIENT) {
      return false;
    }
    assert packet[..][..20] == packet[..20];
    var sum := ComputeChecksum(packet[..20], 0);
    ok := FinishSum(sum) == 0;
  }

  /** The UDP checksum, recomputed with the IP header overwritten in place. */
  method RecomputeUdpCheck(packet: array<byte>, n: nat) returns (sum: nat)
    requires packet.Length == PACKET_SIZE && n <= PACKET_SIZE
    modifies packet
    ensures sum == ExpectedUdpCheck(old(packet[..]), n)
    ensures packet[HEADERS..] == old(packet[HEADERS..])
  {
    var lo, hi := packet[26], packet[27];
    BorrowHeader(packet);
    assert packet[..][..n] == packet[..n];
    sum := ComputeChecksum(packet[..n], 0);
    packet[26], packet[27] := lo, hi;
    sum := FinishSum(sum);
    if sum == 0 {
      sum := FinishSum(sum);
    }
  }

  /** `receive_packet` after the read. */
  method ReceivePacket(packet: array<byte>, nread: int) returns (r: Received)
    requires packet.Length == PACKET_SIZE && nread <= PACKET_SIZE
    modifies packet
    ensures r == Receive(old(packet[..]), nread)
  {
    ghost var mem := packet[..];
    var ok := CheckHeader(packet, nread);
    if !ok {
      return Rejected;
    }
    var n, size := Word(packet[3], packet[2]), Word(packet[25], packet[24]) - 8;
    var temp := Word(packet[26], packet[27]);
    var sum := RecomputeUdpCheck(packet, n);
    if temp != sum {
      return Rejected;
    }
    if 0 <= size <= DHCP_MSG_SIZE {
      var data := packet[HEADERS..];
      assert data == mem[HEADERS..];
      assert mem[HEADERS..HEADERS + size] == mem[HEADERS..][..size];
      return Accepted(data[..size]);
    }
    return Overrun;
  }

  /** Clears the IP header except for the addresses, and turns it into the pseudo header. */
  method BorrowHeader(packet: array<byte>)
    requires packet.Length == PACKET_SIZE
    modifies packet
    ensures packet[..] == PseudoPacket(old(packet[..]))
    ensures packet[HEADERS..] == old(packet[HEADERS..])
  {
    ghost var mem := packet[..];
    forall i | 0 <= i < 12 { packet[i] := 0; }
    packet[9] := IPPROTO_UDP;
    packet[2], packet[3] := packet[24], packet[25];
    packet[26], packet[27] := 0, 0;
    assert packet[12..26] == mem[12..26];
    assert packet[28..] == mem[28..];
    PseudoBytes(mem, packet[..]);
  }

  /** The bytes of the pseudo packet, one region at a time. */
  lemma {:induction false} PseudoBytes(mem: seq<byte>, p: seq<byte>)
    requires |mem| == |p| == PACKET_SIZE && p[12..26] == mem[12..26] && p[28..] == mem[28..]
    requires p[0] == 0 && p[1] == 0 && p[2] == mem[24] && p[3] == mem[25] && p[4] == 0 && p[5] == 0 && p[6] == 0
    requires p[7] == 0 && p[8] == 0 && p[9] == IPPROTO_UDP && p[10] == 0 && p[11] == 0 && p[26] == 0 && p[27] == 0
    ensures p == PseudoPacket(mem)
  {
    assert p[12..16] == p[12..26][..4] == mem[12..16];
    assert p[16..20] == p[12..26][4..8] == mem[16..20];
    assert p[20..26] == p[12..26][8..] == mem[20..26];
    assert p[..12] == [0, 0] + mem[24..26] + [0, 0, 0, 0] + [0, IPPROTO_UDP] + [0, 0];
    assert p[26..28] == [0, 0];
    assert p[..20] == p[..12] + p[12..16] + p[16..20];
    assert p == p[..20] + p[20..26] + p[26..28] + p[28..];
  }

  // ----- the round trip

  lemma {:induction false} WordSumPair(x: byte, y: byte)
    ensures WordSum([x, y]) == Word(x, y)
  {
    assert [x, y][2..] == [];
  }

  lemma {:induction false} IpHeaderSum(totLen: nat, check: seq<byte>, saddr: seq<byte>, daddr: seq<byte>)
    requires |check| == 2 && |saddr| == 4 && |daddr| == 4
    ensures WordSum(IpHeader(totLen, check, saddr, daddr)) ==
            WordSum(IpHeader(totLen, [0, 0], saddr, daddr)) + Word(check[0], check[1])
    ensures WordSum(IpHeader(totLen, [0, 0], saddr, daddr)) > 0
  {
    var front := [0x45, 0] + Be16(totLen) + [0, 0, 0, 0] + [IPDEFTTL, IPPROTO_UDP];
    var back := saddr + daddr;
    WordSumSplice(front, check, back);
    WordSumSplice(front, [0, 0], back);
    assert IpHeader(totLen, check, saddr, daddr) == front + check + back;
    assert IpHeader(totLen, [0, 0], saddr, daddr) == front + [0, 0] + back;
    assert front[0] == 0x45;
  }

  lemma {:induction false} WordSumSplice(front: seq<byte>, mid: seq<byte>, back: seq<byte>)
    requires |front| % 2 == 0 && |mid| == 2
    ensures WordSum(front + mid + back) == WordSum(front) + Word(mid[0], mid[1]) + WordSum(back)
  {
    WordSumConcat(front + mid, back);
    WordSumConcat(front, mid);
    WordSumPair(mid[0], mid[1]);
    assert mid == [mid[0], mid[1]];
  }

  /** The IP header that `send_packet` builds passes the header checksum test. */
  lemma {:induction false} IpCheckValidates(totLen: nat, saddr: seq<byte>, daddr: seq<byte>)
    requires |saddr| == 4 && |daddr| == 4
    ensures FinishSum(Checksum(IpHeader(totLen, Le16(IpCheck(totLen, saddr, daddr)), saddr, daddr), 0)) == 0
  {
    var check := IpCheck(totLen, saddr, daddr);
    IpHeaderSum(totLen, Le16(check), saddr, daddr);
    Be16RoundTrip(check);
    CheckedHeader(IpHeader(totLen, [0, 0], saddr, daddr), IpHeader(totLen, Le16(check), saddr, daddr));
  }

  /** A header completed with the complement of its own sum passes the test. */
  lemma {:induction false} CheckedHeader(h: seq<byte>, checked: seq<byte>)
    requires |h| <= 65535 && |checked| <= 65535 && WordSum(h) > 0
    requires WordSum(checked) == WordSum(h) + FinishSum(Checksum(h, 0))
    ensures FinishSum(Checksum(checked, 0)) == 0
  {
    ChecksumExact(h, 0);
    ChecksumExact(checked, 0);
    ComplementCancels(WordSum(h));
  }

  /** All the words that the UDP checksum of a packet covers. */
  function UdpWords(payload: seq<byte>, saddr: seq<byte>, daddr: seq<byte>, sport: nat, dport: nat): nat {
    var len := 8 + |payload|;
    WordSum(saddr) + WordSum(daddr) + WordSum(Be16(IPPROTO_UDP)) + WordSum(Be16(len)) +
    WordSum(UdpHeader(sport, dport, len, [0, 0])) + WordSum(payload)
  }

  /** The chained sums of the sender are the folded sum of everything they cover. */
  lemma {:induction false} UdpSumIsOnePass(payload: seq<byte>, saddr: seq<byte>, daddr: seq<byte>, sport: nat,
                                           dport: nat)
    requires |saddr| == 4 && |daddr| == 4 && |payload| <= 65507
    ensures UdpSum(payload, saddr, daddr, sport, dport) == Folded(UdpWords(payload, saddr, daddr, sport, dport))
  {
    var len := 8 + |payload|;
    var u := UdpHeader(sport, dport, len, [0, 0]);
    SumIsSmall(saddr);
    SumIsSmall(daddr);
    SumIsSmall(Be16(IPPROTO_UDP));
    SumIsSmall(Be16(len));
    SumIsSmall(u);
    SumIsSmall(payload);
    AccumulateFromZero(WordSum(saddr));
    var t2 := WordSum(saddr) + WordSum(daddr);
    ChainStep(WordSum(saddr), WordSum(daddr), t2);
    var t3 := t2 + WordSum(Be16(IPPROTO_UDP));
    ChainStep(t2, WordSum(Be16(IPPROTO_UDP)), t3);
    var t4 := t3 + WordSum(Be16(len));
    ChainStep(t3, WordSum(Be16(len)), t4);
    var t5 := t4 + WordSum(u);
    ChainStep(t4, WordSum(u), t5);
    ChainStep(t5, WordSum(payload), UdpWords(payload, saddr, daddr, sport, dport));
  }

  /** Sums that leave room in 32 bits. */
  predicate Small(x: nat) {
    x <= 0x8000_0000
  }

  /** A sum started from a folded sum folds the total. */
  lemma {:induction false} ChainStep(acc: nat, w: nat, total: nat)
    requires Small(w) && total == acc + w
    ensures Accumulate(Folded(acc), w) == Folded(total)
  {
    FoldedAdd(acc, w);
  }

  lemma {:induction false} AccumulateFromZero(w: nat)
    requires Small(w)
    ensures Accumulate(0, w) == Folded(w)
  {}

  lemma {:induction false} SumIsSmall(b: seq<byte>)
    requires |b| <= 65535
    ensures Small(WordSum(b))
  {
    WordSumBound(b);
  }

  lemma {:induction false} PseudoFront(udpLen: seq<byte>)
    requires |udpLen| == 2
    ensures WordSum([0, 0] + udpLen + [0, 0, 0, 0] + [0, IPPROTO_UDP] + [0, 0]) ==
            WordSum(Be16(IPPROTO_UDP)) + WordSum(udpLen)
  {
    WordSumParts([0, 0], udpLen, [0, 0, 0, 0], [0, IPPROTO_UDP], [0, 0]);
    WordSumPair(0, 0);
    assert [0, 0, 0, 0][2..] == [0, 0];
    assert Be16(IPPROTO_UDP) == [0, IPPROTO_UDP];
  }

  /** The receiver's recomputation over a sent packet gives the sender's sum. */
  lemma {:induction false} ReceiverSum(payload: seq<byte>, saddr: seq<byte>, daddr: seq<byte>, sport: nat, dport: nat)
    requires |saddr| == 4 && |daddr| == 4 && |payload| <= 65507
    ensures var len := 8 + |payload|;
            var pseudo := [0, 0] + Be16(len) + [0, 0, 0, 0] + [0, IPPROTO_UDP] + [0, 0] + saddr + daddr;
            Checksum(pseudo + UdpHeader(sport, dport, len, [0, 0]) + payload, 0) ==
            UdpSum(payload, saddr, daddr, sport, dport)
  {
    var len := 8 + |payload|;
    var front := [0, 0] + Be16(len) + [0, 0, 0, 0] + [0, IPPROTO_UDP] + [0, 0];
    var u := UdpHeader(sport, dport, len, [0, 0]);
    PseudoFront(Be16(len));
    OnePass(front, saddr, daddr, u, payload, UdpWords(payload, saddr, daddr, sport, dport));
    UdpSumIsOnePass(payload, saddr, daddr, sport, dport);
  }

  lemma {:induction false} OnePass(a: seq<byte>, b: seq<byte>, c: seq<byte>, d: seq<byte>, e: seq<byte>, total: nat)
    requires |a| % 2 == 0 && |b| % 2 == 0 && |c| % 2 == 0 && |d| % 2 == 0
    requires |a| + |b| + |c| + |d| + |e| <= 65535
    requires total == WordSum(a) + WordSum(b) + WordSum(c) + WordSum(d) + WordSum(e)
    ensures Checksum(a + b + c + d + e, 0) == Folded(total)
  {
    WordSumParts(a, b, c, d, e);
    ChecksumExact(a + b + c + d + e, 0);
  }

  /** The structure that holds a received copy of a packet, whatever follows it in memory. */
  ghost predicate Holds(mem: seq<byte>, packet: seq<byte>) {
    |mem| == PACKET_SIZE && packet <= mem
  }

  /** Where the fields of a sent packet lie in memory. */
  lemma {:induction false} SentFields(mem: seq<byte>, payload: seq<byte>, saddr: seq<byte>, daddr: seq<byte>,
                                      sport: nat, dport: nat)
    requires |saddr| == 4 && |daddr| == 4 && |payload| <= DHCP_MSG_SIZE
    requires Holds(mem, SentPacket(payload, saddr, daddr, sport, dport))
    ensures var totLen := HEADERS + |payload|;
            var check := Le16(UdpCheck(payload, saddr, daddr, sport, dport));
            && mem[..20] == IpHeader(totLen, Le16(IpCheck(totLen, saddr, daddr)), saddr, daddr)
            && mem[20..28] == UdpHeader(sport, dport, 8 + |payload|, check)
            && mem[28..totLen] == payload
  {
    var totLen := HEADERS + |payload|;
    var ip := IpHeader(totLen, Le16(IpCheck(totLen, saddr, daddr)), saddr, daddr);
    var udp := UdpHeader(sport, dport, 8 + |payload|, Le16(UdpCheck(payload, saddr, daddr, sport, dport)));
    var packet := ip + udp + payload;
    assert mem[..totLen] == packet;
    assert mem[..20] == packet[..20] == ip;
    assert mem[20..28] == packet[20..28] == udp;
    assert mem[28..totLen] == packet[28..] == payload;
  }

  /** Splits the bytes of the IP header. */
  lemma {:induction false} IpFields(h: seq<byte>, totLen: nat, check: seq<byte>, saddr: seq<byte>, daddr: seq<byte>)
    requires |check| == 2 && |saddr| == 4 && |daddr| == 4 && h == IpHeader(totLen, check, saddr, daddr)
    ensures h[0] == 0x45 && h[2..4] == Be16(totLen) && h[9] == IPPROTO_UDP
    ensures h[12..16] == saddr && h[16..20] == daddr
  {}

  lemma {:induction false} UdpFields(h: seq<byte>, sport: nat, dport: nat, len: nat, check: seq<byte>)
    requires |check| == 2 && h == UdpHeader(sport, dport, len, check)
    ensures h[2..4] == Be16(dport) && h[4..6] == Be16(len) && h[6..8] == check
    ensures h[..6] + [0, 0] == UdpHeader(sport, dport, len, [0, 0])
  {}

  lemma {:induction false} Be16RoundTrip(x: nat)
    requires x < 65536
    ensures Word(Be16(x)[1], Be16(x)[0]) == x
    ensures Word(Le16(x)[0], Le16(x)[1]) == x
  {}

  lemma {:induction false} SentHeaderIsValid(mem: seq<byte>, nread: int, payload: seq<byte>,
                          saddr: seq<byte>, daddr: seq<byte>, sport: nat)
    requires |saddr| == 4 && |daddr| == 4 && |payload| <= DHCP_MSG_SIZE
    requires Holds(mem, SentPacket(payload, saddr, daddr, sport, PORT_BOOTP_CLIENT))
    requires nread >= HEADERS + |payload|
    ensures HeaderValid(mem, nread) && Word16(mem, 2) == HEADERS + |payload|
  {
    var totLen := HEADERS + |payload|;
    SentFields(mem, payload, saddr, daddr, sport, PORT_BOOTP_CLIENT);
    IpFields(mem[..20], totLen, Le16(IpCheck(totLen, saddr, daddr)), saddr, daddr);
    UdpFields(mem[20..28], sport, PORT_BOOTP_CLIENT, 8 + |payload|,
              Le16(UdpCheck(payload, saddr, daddr, sport, PORT_BOOTP_CLIENT)));
    assert mem[22..24] == mem[20..28][2..4];
    assert mem[..20][2..4] == mem[2..4];
    assert mem[2] == mem[2..4][0] && mem[3] == mem[2..4][1];
    Be16RoundTrip(totLen);
    IpCheckValidates(totLen, saddr, daddr);
  }

  lemma {:induction false} SentExpectedCheck(mem: seq<byte>, payload: seq<byte>, saddr: seq<byte>, daddr: seq<byte>,
                                             sport: nat)
    requires |saddr| == 4 && |daddr| == 4 && |payload| <= DHCP_MSG_SIZE
    requires Holds(mem, SentPacket(payload, saddr, daddr, sport, PORT_BOOTP_CLIENT))
    ensures var check := UdpCheck(payload, saddr, daddr, sport, PORT_BOOTP_CLIENT);
            ExpectedUdpCheck(mem, HEADERS + |payload|) == if check == 0 then 65535 else check
  {
    var totLen, len := HEADERS + |payload|, 8 + |payload|;
    var check := Le16(UdpCheck(payload, saddr, daddr, sport, PORT_BOOTP_CLIENT));
    SentFields(mem, payload, saddr, daddr, sport, PORT_BOOTP_CLIENT);
    IpFields(mem[..20], totLen, Le16(IpCheck(totLen, saddr, daddr)), saddr, daddr);
    UdpFields(mem[20..28], sport, PORT_BOOTP_CLIENT, len, check);
    var pseudo := [0, 0] + Be16(len) + [0, 0, 0, 0] + [0, IPPROTO_UDP] + [0, 0] + saddr + daddr;
    assert mem[24..26] == mem[20..28][4..6] && mem[12..16] == mem[..20][12..16] && mem[16..20] == mem[..20][16..20];
    assert PseudoHeader(mem) == pseudo;
    var u := UdpHeader(sport, PORT_BOOTP_CLIENT, len, [0, 0]);
    assert mem[20..26] + [0, 0] == mem[20..28][..6] + [0, 0] == u;
    PseudoPacketIs(pseudo, u, mem, payload);
    ReceiverSum(payload, saddr, daddr, sport, PORT_BOOTP_CLIENT);
  }

  lemma {:induction false} PseudoPacketIs(pseudo: seq<byte>, u: seq<byte>, mem: seq<byte>, payload: seq<byte>)
    requires |mem| == PACKET_SIZE && |pseudo| == 20 && |u| == 8 && u == mem[20..26] + [0, 0]
    requires HEADERS + |payload| <= PACKET_SIZE && mem[28..HEADERS + |payload|] == payload
    ensures (pseudo + mem[20..26] + [0, 0] + mem[28..])[..HEADERS + |payload|] == pseudo + u + payload
  {
    assert pseudo + mem[20..26] + [0, 0] == pseudo + u;
    assert mem[28..][..|payload|] == payload;
  }

  /**
   * A packet built by `send_packet` for the client port, read back in full, is accepted and returns its
   * payload exactly when its computed UDP checksum is not zero; otherwise it is rejected.
   */
  lemma {:induction false} SendReceiveRoundTrip(mem: seq<byte>, nread: int, payload: seq<byte>,
                             saddr: seq<byte>, daddr: seq<byte>, sport: nat)
    requires |saddr| == 4 && |daddr| == 4 && |payload| <= DHCP_MSG_SIZE
    requires Holds(mem, SentPacket(payload, saddr, daddr, sport, PORT_BOOTP_CLIENT))
    requires HEADERS + |payload| <= nread <= PACKET_SIZE
    ensures Receive(mem, nread) ==
            if UdpCheck(payload, saddr, daddr, sport, PORT_BOOTP_CLIENT) != 0 then Accepted(payload) else Rejected
  {
    SentHeaderIsValid(mem, nread, payload, saddr, daddr, sport);
    SentExpectedCheck(mem, payload, saddr, daddr, sport);
    SentUdpWords(mem, payload, saddr, daddr, sport);
  }

  /** The checksum and length fields of a sent packet, and its data. */
  lemma {:induction false} SentUdpWords(mem: seq<byte>, payload: seq<byte>, saddr: seq<byte>, daddr: seq<byte>,
                                        sport: nat)
    requires |saddr| == 4 && |daddr| == 4 && |payload| <= DHCP_MSG_SIZE
    requires Holds(mem, SentPacket(payload, saddr, daddr, sport, PORT_BOOTP_CLIENT))
    ensures Word(mem[26], mem[27]) == UdpCheck(payload, saddr, daddr, sport, PORT_BOOTP_CLIENT)
    ensures Word16(mem, 24) == 8 + |payload|
    ensures mem[HEADERS..HEADERS + |payload|] == payload
  {
    var check := UdpCheck(payload, saddr, daddr, sport, PORT_BOOTP_CLIENT);
    SentFields(mem, payload, saddr, daddr, sport, PORT_BOOTP_CLIENT);
    UdpBytes(mem[20..28], sport, PORT_BOOTP_CLIENT, 8 + |payload|, check);
    assert mem[26] == mem[20..28][6] && mem[27] == mem[20..28][7];
    assert mem[24] == mem[20..28][4] && mem[25] == mem[20..28][5];
  }

  lemma {:induction false} UdpBytes(h: seq<byte>, sport: nat, dport: nat, len: nat, check: nat)
    requires h == UdpHeader(sport, dport, len, Le16(check)) && len < 65536 && check < 65536
    ensures Word(h[6], h[7]) == check && Word(h[5], h[4]) == len
  {
    UdpFields(h, sport, dport, len, Le16(check));
    assert h[6] == h[6..8][0] && h[7] == h[6..8][1] && h[4] == h[4..6][0] && h[5] == h[4..6][1];
    Be16RoundTrip(check);
    Be16RoundTrip(len);
  }

  /** The failing family is not empty: this two-byte payload has a zero checksum. */
  lemma {:induction false} ZeroChecksumExists()
    ensures UdpCheck([255, 83], [0, 0, 0, 0], [255, 255, 255, 255], 67, PORT_BOOTP_CLIENT) == 0
  {
    var payload, saddr, daddr := [255, 83], [0, 0, 0, 0], [255, 255, 255, 255];
    UdpSumIsOnePass(payload, saddr, daddr, 67, PORT_BOOTP_CLIENT);
    SampleAddresses();
    SampleHeader();
    AllOnes(WordSum(saddr) + WordSum(daddr) + WordSum(Be16(IPPROTO_UDP)) + WordSum(Be16(10)) +
            WordSum(UdpHeader(67, PORT_BOOTP_CLIENT, 10, [0, 0])) + WordSum(payload));
  }

  lemma {:induction false} AllOnes(x: nat)
    requires x == 3 * 65535
    ensures Folded(x) == 65535
  {}

  lemma {:induction false} SampleAddresses()
    ensures WordSum([0, 0, 0, 0]) == 0 && WordSum([255, 255, 255, 255]) == 2 * 65535
  {
    WordSumConcat([0, 0], [0, 0]);
    WordSumConcat([255, 255], [255, 255]);
    assert [0, 0] + [0, 0] == [0, 0, 0, 0] && [255, 255] + [255, 255] == [255, 255, 255, 255];
    WordSumPair(0, 0);
    WordSumPair(255, 255);
  }

  lemma {:induction false} SampleHeader()
    ensures WordSum(Be16(IPPROTO_UDP)) == 4352 && WordSum(Be16(10)) == 2560 && WordSum([255, 83]) == 21503
    ensures WordSum(UdpHeader(67, PORT_BOOTP_CLIENT, 10, [0, 0])) == 17152 + 17408 + 2560
  {
    WordSumParts(Be16(67), Be16(68), Be16(10), [0, 0], []);
    assert Be16(67) + Be16(68) + Be16(10) + [0, 0] + [] == UdpHeader(67, PORT_BOOTP_CLIENT, 10, [0, 0]);
    WordSumPair(0, 0);
    WordSumPair(255, 83);
    WordSumPair(0, 17);
    WordSumPair(0, 10);
    WordSumPair(0, 67);
    WordSumPair(0, 68);
  }
}
