/** Sent and received packets byte by byte (RFC 791, RFC 768, RFC 1071). */
module PacketLayout {
  import opened Common
  import opened Bits
  import opened PacketModel

  /** A 16-bit field in network order. */
  function Field(p: seq<byte>, i: nat): nat
    requires i + 1 < |p|
  {
    256 * (p[i] as int) + p[i + 1] as int
  }

  /** The words that a UDP checksum covers: addresses, protocol, length, and the datagram. */
  function Covered(p: seq<byte>, n: nat): nat
    requires 28 <= n <= |p|
  {
    WordSum(p[12..20]) + 256 * 17 + Word(p[24], p[25]) + WordSum(p[20..n])
  }

  /** A sum whose ones' complement is zero. */
  predicate AllOnes16(sum: nat) {
    sum > 0 && sum % 65535 == 0
  }

  lemma {:induction false} FoldedOnes(x: nat)
    ensures Folded(x) == 65535 <==> AllOnes16(x)
    decreases x
  {
    if x > 65535 {
      FoldedOnes(x - 65535);
    }
  }

  lemma {:induction false} Be16Field(h: seq<byte>, i: nat, x: nat)
    requires i + 1 < |h| && h[i..i + 2] == Be16(x) && x < 65536
    ensures Field(h, i) == x
  {
    assert h[i] == h[i..i + 2][0] && h[i + 1] == h[i..i + 2][1];
  }

  lemma {:induction false} IpBytes(h: seq<byte>, totLen: nat, check: seq<byte>, saddr: seq<byte>, daddr: seq<byte>)
    requires |check| == 2 && |saddr| == 4 && |daddr| == 4 && h == IpHeader(totLen, check, saddr, daddr)
    requires totLen < 65536
    ensures h[0] == 0x45 && h[1] == 0 && Field(h, 2) == totLen && h[4..8] == [0, 0, 0, 0] && h[8] == 64 && h[9] == 17
    ensures h[10..12] == check && h[12..16] == saddr && h[16..20] == daddr
  {
    assert h[2..4] == Be16(totLen);
    Be16Field(h, 2, totLen);
  }

  lemma {:induction false} UdpFieldBytes(h: seq<byte>, sport: nat, dport: nat, len: nat, check: seq<byte>)
    requires |check| == 2 && h == UdpHeader(sport, dport, len, check) && sport < 65536 && dport < 65536 && len < 65536
    ensures Field(h, 0) == sport && Field(h, 2) == dport && Field(h, 4) == len && h[6..8] == check
  {
    Be16Field(h, 0, sport);
    Be16Field(h, 2, dport);
    Be16Field(h, 4, len);
  }

  /** The pieces of a sent packet. */
  lemma {:induction false} SentPieces(payload: seq<byte>, saddr: seq<byte>, daddr: seq<byte>, sport: nat, dport: nat,
                                      p: seq<byte>)
    requires |saddr| == 4 && |daddr| == 4 && p == SentPacket(payload, saddr, daddr, sport, dport)
    ensures |p| == 28 + |payload|
    ensures var totLen := HEADERS + |payload|;
            p[..20] == IpHeader(totLen, Le16(IpCheck(totLen, saddr, daddr)), saddr, daddr)
    ensures p[20..28] ==
            UdpHeader(sport, dport, 8 + |payload|, Le16(UdpCheck(payload, saddr, daddr, sport, dport)))
    ensures p[28..] == payload
  {
    var totLen := HEADERS + |payload|;
    var ip := IpHeader(totLen, Le16(IpCheck(totLen, saddr, daddr)), saddr, daddr);
    var udp := UdpHeader(sport, dport, 8 + |payload|, Le16(UdpCheck(payload, saddr, daddr, sport, dport)));
    assert p == ip + udp + payload;
  }

  ghost predicate IsSentBody(p: seq<byte>, payload: seq<byte>, saddr: seq<byte>, daddr: seq<byte>, sport: nat,
                             dport: nat, s: Seal)
    requires |saddr| == 4 && |daddr| == 4
  {
    p == SentPacket(payload, saddr, daddr, sport, dport)
  }

  /** `p` is the packet that is sent. */
  ghost predicate IsSent(p: seq<byte>, payload: seq<byte>, saddr: seq<byte>, daddr: seq<byte>, sport: nat, dport: nat)
    requires |saddr| == 4 && |daddr| == 4
  {
    forall s: Seal :: IsSentBody(p, payload, saddr, daddr, sport, dport, s)
  }

  /** Where the fields of a sent packet stand, addresses and ports included. */
  lemma {:induction false} SentFieldsAt(payload: seq<byte>, saddr: seq<byte>, daddr: seq<byte>, sport: nat,
                                        dport: nat, p: seq<byte>)
    requires |saddr| == 4 && |daddr| == 4 && sport < 65536 && dport < 65536 && |payload| <= 65507
    requires IsSent(p, payload, saddr, daddr, sport, dport)
    ensures |p| == 28 + |payload| && p[28..] == payload
    ensures p[0] == 0x45 && p[1] == 0 && Field(p, 2) == |p| && p[4..8] == [0, 0, 0, 0] && p[8] == 64 && p[9] == 17
    ensures p[12..16] == saddr && p[16..20] == daddr
    ensures Field(p, 20) == sport && Field(p, 22) == dport && Field(p, 24) == 8 + |payload|
  {
    assert IsSentBody(p, payload, saddr, daddr, sport, dport, Seal);
    var totLen := HEADERS + |payload|;
    SentPieces(payload, saddr, daddr, sport, dport, p);
    var ip, udp := p[..20], p[20..28];
    IpBytes(ip, totLen, Le16(IpCheck(totLen, saddr, daddr)), saddr, daddr);
    UdpFieldBytes(udp, sport, dport, 8 + |payload|, Le16(UdpCheck(payload, saddr, daddr, sport, dport)));
    assert ip[4..8] == p[4..8] && ip[12..16] == p[12..16] && ip[16..20] == p[16..20];
    assert forall i :: 0 <= i < 20 ==> ip[i] == p[i];
    assert forall i :: 0 <= i < 8 ==> udp[i] == p[20 + i];
  }

  /** Both checksums of a sent packet make the sum of what they cover all ones. */
  lemma {:induction false} SentChecksums(payload: seq<byte>, saddr: seq<byte>, daddr: seq<byte>, sport: nat,
                                         dport: nat, p: seq<byte>)
    requires |saddr| == 4 && |daddr| == 4 && sport < 65536 && dport < 65536 && |payload| <= 65507
    requires IsSent(p, payload, saddr, daddr, sport, dport)
    ensures |p| >= 28 && AllOnes16(WordSum(p[..20])) && AllOnes16(Covered(p, |p|))
  {
    assert IsSentBody(p, payload, saddr, daddr, sport, dport, Seal);
    SentPieces(payload, saddr, daddr, sport, dport, p);
    IpCheckValidates(HEADERS + |payload|, saddr, daddr);
    ChecksumExact(p[..20], 0);
    FoldedOnes(WordSum(p[..20]));
    SentCovered(payload, saddr, daddr, sport, dport, p);
    FoldedOnes(Covered(p, |p|));
  }

  lemma {:induction false} SentCovered(payload: seq<byte>, saddr: seq<byte>, daddr: seq<byte>, sport: nat,
                                       dport: nat, p: seq<byte>)
    requires |saddr| == 4 && |daddr| == 4 && sport < 65536 && dport < 65536 && |payload| <= 65507
    requires p == SentPacket(payload, saddr, daddr, sport, dport)
    ensures |p| >= 28 && Folded(Covered(p, |p|)) == 65535
  {
    var len, words := 8 + |payload|, UdpWords(payload, saddr, daddr, sport, dport);
    var check := UdpCheck(payload, saddr, daddr, sport, dport);
    SentPieces(payload, saddr, daddr, sport, dport, p);
    SentFieldsAt(payload, saddr, daddr, sport, dport, p);
    CoveredParts(p, saddr, daddr, payload);
    UdpHeaderSum(sport, dport, len, Le16(check));
    Be16RoundTrip(check);
    LengthWords(len, p[24], p[25]);
    assert Covered(p, |p|) == words + check;
    UdpSumIsOnePass(payload, saddr, daddr, sport, dport);
    ComplementCancels(words);
  }

  lemma {:induction false} CoveredParts(p: seq<byte>, saddr: seq<byte>, daddr: seq<byte>, payload: seq<byte>)
    requires |saddr| == 4 && |p| == 28 + |payload| && p[12..16] == saddr && p[16..20] == daddr && p[28..] == payload
    ensures Covered(p, |p|) ==
            WordSum(saddr) + WordSum(daddr) + 256 * 17 + Word(p[24], p[25]) + WordSum(p[20..28]) + WordSum(payload)
  {
    assert p[12..20] == saddr + daddr && p[20..|p|] == p[20..28] + payload;
    WordSumConcat(saddr, daddr);
    WordSumConcat(p[20..28], payload);
  }

  /** The words of the pseudo header that are not addresses. */
  lemma {:induction false} LengthWords(len: nat, hi: byte, lo: byte)
    requires len < 65536 && 256 * (hi as int) + lo as int == len
    ensures WordSum(Be16(IPPROTO_UDP)) == 256 * 17 && WordSum(Be16(len)) == Word(hi, lo)
  {
    assert Be16(IPPROTO_UDP) == [0, 17] && Be16(len) == [hi, lo];
    WordSumPair(0, 17);
    WordSumPair(hi, lo);
  }

  lemma {:induction false} UdpHeaderSum(sport: nat, dport: nat, len: nat, check: seq<byte>)
    requires |check| == 2
    ensures WordSum(UdpHeader(sport, dport, len, check)) ==
            WordSum(UdpHeader(sport, dport, len, [0, 0])) + Word(check[0], check[1])
  {
    var front := Be16(sport) + Be16(dport) + Be16(len);
    WordSumSplice(front, check, []);
    WordSumSplice(front, [0, 0], []);
    assert UdpHeader(sport, dport, len, check) == front + check + [];
    assert UdpHeader(sport, dport, len, [0, 0]) == front + [0, 0] + [];
  }

  // ----- the receiver

  /** The words that the receiver sums over its borrowed header, without the checksum field. */
  lemma {:induction false} PseudoSum(mem: seq<byte>, n: nat)
    requires |mem| == PACKET_SIZE && 28 <= n <= PACKET_SIZE
    ensures WordSum(PseudoPacket(mem)[..n]) + Word(mem[26], mem[27]) == Covered(mem, n)
    ensures WordSum(PseudoPacket(mem)[..n]) > 0
  {
    var ip, u, data := PseudoHeader(mem), mem[20..26], mem[28..n];
    assert PseudoPacket(mem)[..n] == ip + u + [0, 0] + data;
    WordSumConcat(ip + u + [0, 0], data);
    WordSumSplice(ip + u, [0, 0], []);
    assert ip + u + [0, 0] + [] == ip + u + [0, 0];
    WordSumConcat(ip, u);
    PseudoHeaderSum(mem);
    CoveredSum(mem, n);
  }

  lemma {:induction false} CoveredSum(mem: seq<byte>, n: nat)
    requires |mem| == PACKET_SIZE && 28 <= n <= PACKET_SIZE
    ensures WordSum(mem[20..n]) == WordSum(mem[20..26]) + Word(mem[26], mem[27]) + WordSum(mem[28..n])
  {
    WordSumSplice(mem[20..26], [mem[26], mem[27]], mem[28..n]);
    assert mem[20..n] == mem[20..26] + [mem[26], mem[27]] + mem[28..n];
  }

  lemma {:induction false} PseudoHeaderSum(mem: seq<byte>)
    requires |mem| == PACKET_SIZE
    ensures WordSum(PseudoHeader(mem)) == Word(mem[24], mem[25]) + 256 * 17 + WordSum(mem[12..20])
  {
    var front := [0, 0] + mem[24..26] + [0, 0, 0, 0] + [0, IPPROTO_UDP] + [0, 0];
    PseudoFront(mem[24..26]);
    WordSumConcat(front, mem[12..20]);
    assert mem[12..16] + mem[16..20] == mem[12..20];
    assert PseudoHeader(mem) == front + mem[12..20];
    assert Be16(IPPROTO_UDP) == [0, 17] && mem[24..26] == [mem[24], mem[25]];
    WordSumPair(0, 17);
    WordSumPair(mem[24], mem[25]);
  }

  /** A stored checksum is the one expected exactly when it is not zero and completes the sum to all ones. */
  lemma {:induction false} StoredCheck(s: nat, c: nat)
    requires c <= 65535
    ensures var sum := FinishSum(Folded(s));
            (c == if sum == 0 then FinishSum(sum) else sum) <==> c != 0 && AllOnes16(s + c)
    decreases s
  {
    if s > 65535 {
      StoredCheck(s - 65535, c);
    }
  }

  /** The pseudo header, ports and length, in the order in which they are summed. */
  function Borrowed(mem: seq<byte>): seq<byte>
    requires |mem| == PACKET_SIZE
  {
    [0, 0, mem[24], mem[25], 0, 0, 0, 0, 0, 17, 0, 0] + mem[12..26] + [0, 0]
  }

  /** What the UDP checksum covers; of a packet that is too short for its headers, only the first `n` bytes count. */
  function Summed(mem: seq<byte>, n: nat): nat
    requires |mem| == PACKET_SIZE && n <= PACKET_SIZE
  {
    if n >= 28 then Covered(mem, n) else WordSum(Borrowed(mem)[..n]) + Word(mem[26], mem[27])
  }

  lemma {:induction false} ShortSum(mem: seq<byte>, n: nat)
    requires |mem| == PACKET_SIZE && n < 28
    ensures PseudoPacket(mem)[..n] == Borrowed(mem)[..n]
  {
    assert Be16(IPPROTO_UDP) == [0, 17] && mem[24..26] == [mem[24], mem[25]];
    assert PseudoHeader(mem) == [0, 0, mem[24], mem[25], 0, 0, 0, 0, 0, 17, 0, 0] + mem[12..20];
    assert mem[12..26] == mem[12..20] + mem[20..26];
    assert PseudoPacket(mem) == Borrowed(mem) + mem[28..];
  }

  /**
   * A packet is taken exactly when it has an IPv4 header without options, all of it was read, it is a UDP datagram for
   * the client port, and both checksums are all ones, the stored one not being zero.
   */
  lemma {:induction false} ReceiveExact(mem: seq<byte>, nread: int)
    requires |mem| == PACKET_SIZE && nread <= PACKET_SIZE
    ensures Receive(mem, nread) != Rejected <==>
              && 28 <= nread && Field(mem, 2) <= nread && mem[0] == 0x45 && mem[9] == 17 && Field(mem, 22) == 68
              && AllOnes16(WordSum(mem[..20]))
              && Field(mem, 26) != 0 && AllOnes16(Summed(mem, Field(mem, 2)))
    ensures Receive(mem, nread).Accepted? ==>
              && 28 <= 20 + Field(mem, 24) <= PACKET_SIZE
              && Receive(mem, nread).payload == mem[28..20 + Field(mem, 24)]
  {
    var n := Field(mem, 2);
    assert Be16(PORT_BOOTP_CLIENT) == [0, 68] && mem[22..24] == [mem[22], mem[23]];
    ChecksumExact(mem[..20], 0);
    FoldedOnes(WordSum(mem[..20]));
    if n <= PACKET_SIZE {
      UdpTest(mem, n);
    }
  }

  lemma {:induction false} UdpTest(mem: seq<byte>, n: nat)
    requires |mem| == PACKET_SIZE && n <= PACKET_SIZE
    ensures Word(mem[26], mem[27]) == ExpectedUdpCheck(mem, n) <==>
            Field(mem, 26) != 0 && AllOnes16(Summed(mem, n))
  {
    ChecksumExact(PseudoPacket(mem)[..n], 0);
    if n >= 28 {
      PseudoSum(mem, n);
    } else {
      ShortSum(mem, n);
    }
    StoredCheck(WordSum(PseudoPacket(mem)[..n]), Word(mem[26], mem[27]));
  }
}
