/** Ethernet, IPv4 and UDP packets: the parsers, and the builder of UDP headers. */
module Packets {
  import opened Arith
  import opened Basics
  import opened Checksums

  const ETHTYPE_IPV4: nat := 0x0800
  const IPPROTO_UDP: Byte := 0x11
  const USIZE: nat := 0x1_0000_0000_0000_0000

  datatype Ethernet = Ethernet(dstMac: seq<Byte>, srcMac: seq<Byte>, typ: nat, payload: seq<Byte>)
  datatype Ip = Ip(eth: Ethernet, srcIp: nat, dstIp: nat, protocol: Byte, payload: seq<Byte>)
  datatype Udp = Udp(ip: Ip, srcPort: nat, dstPort: nat, payload: seq<Byte>)

  /** Two bytes of `b` at `i`, most significant first. */
  function Read16(b: seq<Byte>, i: nat): nat
    requires i + 2 <= |b|
  {
    BigWord(b[i], b[i + 1])
  }

  function Read32(b: seq<Byte>, i: nat): nat
    requires i + 4 <= |b|
  {
    Value(b[i..i + 4])
  }

  function ParseEth(raw: seq<Byte>): Option<Ethernet> {
    if |raw| < 14 then None
    else Some(Ethernet(raw[0..6], raw[6..12], Read16(raw, 12), raw[14..]))
  }

  /** Version 4, a header of exactly 20 bytes, no fragmentation, a length that fits. */
  predicate IpHeaderOk(h: seq<Byte>, available: nat)
    requires |h| == 20
  {
    h[0] == 0x45 && (h[6] == 0 || h[6] == 0x40) && h[7] == 0 && 20 <= Read16(h, 2) <= available
  }

  /** These are the bits the code looks at: a version of 4 and a length of 5 words, the first
      and the last of the three flags clear, a fragment offset of zero. */
  lemma HeaderBits(h: seq<Byte>)
    requires |h| == 20
    ensures h[0] == 0x45 <==> h[0] / 16 == 4 && h[0] % 16 == 5
    ensures (h[6] == 0 || h[6] == 0x40) && h[7] == 0 <==>
              h[6] / 32 / 4 == 0 && h[6] / 32 % 2 == 0 && Read16(h, 6) % 0x2000 == 0
  {
    OffsetBits(h[6] / 32, h[6] % 32, h[7]);
  }

  lemma OffsetBits(q: nat, r: nat, lo: Byte)
    requires r < 32
    ensures ((32 * q + r) * 256 + lo) % 0x2000 == r * 256 + lo
  {
    Digit((32 * q + r) * 256 + lo, r * 256 + lo, 0x2000, q);
  }

  function ParseIp(raw: seq<Byte>): Option<Ip> {
    var eth := ParseEth(raw);
    if eth.None? || eth.value.typ != ETHTYPE_IPV4 || |eth.value.payload| < 20 then None
    else
      var p := eth.value.payload;
      var h := p[..20];
      if !IpHeaderOk(h, |p|) || Summed(0, h) != 0 then None
      else Some(Ip(eth.value, Read32(h, 12), Read32(h, 16), h[9], p[20..Read16(h, 2)]))
  }

  /** The pseudo header a UDP checksum starts from (RFC 768). */
  function Pseudo(ip: Ip, length: nat): seq<Byte> {
    Digits(ip.srcIp, 4) + Digits(ip.dstIp, 4) + [0, ip.protocol] + BigBytes(length)
  }

  predicate UdpChecksumOk(ip: Ip, length: nat)
    requires |ip.payload| >= 8
  {
    Read16(ip.payload, 6) != 0 ==> Summed(LittleSum(Pseudo(ip, length)), ip.payload) == 0
  }

  function ParseUdp(raw: seq<Byte>): Option<Udp> {
    var ip := ParseIp(raw);
    if ip.None? || |ip.value.payload| < 8 then None
    else
      var p := ip.value.payload;
      var length := Read16(p, 4);
      if !UdpChecksumOk(ip.value, length) || length < 8 || length > |p| then None
      else Some(Udp(ip.value, Read16(p, 0), Read16(p, 2), p[8..length]))
  }

  // ----- building -----

  datatype Route = Route(srcMac: seq<Byte>, dstMac: seq<Byte>, srcIp: nat, dstIp: nat, srcPort: nat, dstPort: nat)

  predicate RouteOk(t: Route) {
    && |t.srcMac| == 6 && |t.dstMac| == 6 && t.srcIp < WORD32 && t.dstIp < WORD32
    && t.srcPort < 0x1_0000 && t.dstPort < 0x1_0000
  }

  function EthHeader(t: Route): seq<Byte> { t.dstMac + t.srcMac + BigBytes(ETHTYPE_IPV4) }

  /** The IP header before and after its checksum field. */
  function IpFront(messageLen: nat): seq<Byte> {
    [0x45, 0] + BigBytes(28 + messageLen) + [0, 0, 0, 0] + [64, IPPROTO_UDP]
  }

  function IpBack(t: Route): seq<Byte> { Digits(t.srcIp, 4) + Digits(t.dstIp, 4) }

  /** The IP header with `c` in its checksum field. */
  function IpHeaderWith(t: Route, messageLen: nat, c: nat): seq<Byte> {
    IpFront(messageLen) + BigBytes(c) + IpBack(t)
  }

  function IpHeader(t: Route, messageLen: nat): seq<Byte> {
    IpHeaderWith(t, messageLen, Summed(0, IpFront(messageLen) + [0, 0] + IpBack(t)))
  }

  function UdpHeader(t: Route, messageLen: nat): seq<Byte> {
    BigBytes(t.srcPort) + BigBytes(t.dstPort) + BigBytes(8 + messageLen) + [0, 0]
  }

  /** The 42 bytes in front of the message. */
  function Headers(t: Route, messageLen: nat): seq<Byte> {
    EthHeader(t) + IpHeader(t, messageLen) + UdpHeader(t, messageLen)
  }

  // ----- what was built parses back -----

  lemma Read16Bytes(b: seq<Byte>, i: nat, x: nat)
    requires i + 2 <= |b| && b[i..i + 2] == BigBytes(x) && x < 0x1_0000
    ensures Read16(b, i) == x
  {
    assert b[i] == b[i..i + 2][0] && b[i + 1] == b[i..i + 2][1];
  }

  lemma Read32Bytes(b: seq<Byte>, i: nat, x: nat)
    requires i + 4 <= |b| && b[i..i + 4] == Digits(x, 4) && x < WORD32
    ensures Read32(b, i) == x
  {
    FourDigits();
    ValueOfDigits(x, 4);
  }

  /** The header built for a message is valid and names its addresses, whatever its checksum. */
  lemma IpHeaderFields(t: Route, n: nat, c: nat)
    requires RouteOk(t) && 28 + n < 0x1_0000
    ensures var h := IpHeaderWith(t, n, c);
            && |h| == 20 && IpHeaderOk(h, 28 + n) && Read16(h, 2) == 28 + n && h[9] == IPPROTO_UDP
            && Read32(h, 12) == t.srcIp && Read32(h, 16) == t.dstIp
  {
    hide Digits, Value;
    var h := IpHeaderWith(t, n, c);
    assert h[2..4] == BigBytes(28 + n);
    Read16Bytes(h, 2, 28 + n);
    assert h[12..16] == Digits(t.srcIp, 4) && h[16..20] == Digits(t.dstIp, 4);
    Read32Bytes(h, 12, t.srcIp);
    Read32Bytes(h, 16, t.dstIp);
  }

  /** Its checksum checks. */
  lemma IpHeaderChecks(t: Route, n: nat)
    requires RouteOk(t)
    ensures |IpHeader(t, n)| == 20 && Summed(0, IpHeader(t, n)) == 0
  {
    hide Summed, Internet, BigSum, Digits;
    var a, z := IpFront(n), IpBack(t);
    var zero: seq<Byte> := [0, 0];
    var zeroed := a + zero + z;
    ChecksumIsInternet(zeroed);
    FrontSum(n);
    BigSplit(a + zero, z);
    BigSplit(a, zero);
    Checks(a, z);
    ChecksumIsInternet(IpHeader(t, n));
  }

  lemma FrontSum(n: nat)
    ensures BigSum(IpFront(n)) > 0
  {
  }

  lemma HeaderSizes(t: Route, n: nat)
    requires RouteOk(t)
    ensures |EthHeader(t)| == 14 && |IpHeader(t, n)| == 20 && |UdpHeader(t, n)| == 8 && |Headers(t, n)| == 42
  {
    hide Summed;
  }

  lemma EthParses(t: Route, rest: seq<Byte>)
    requires RouteOk(t)
    ensures ParseEth(EthHeader(t) + rest) == Some(Ethernet(t.dstMac, t.srcMac, ETHTYPE_IPV4, rest))
  {
    var raw, mac := EthHeader(t) + rest, t.dstMac + t.srcMac;
    assert raw[0..6] == t.dstMac && raw[6..12] == t.srcMac && raw[14..] == rest;
    assert raw[12..14] == BigBytes(ETHTYPE_IPV4);
    Read16Bytes(raw, 12, ETHTYPE_IPV4);
  }

  /** An IP packet whose body is followed by padding. */
  lemma IpParses(t: Route, n: nat, body: seq<Byte>, pad: seq<Byte>)
    requires RouteOk(t) && 28 + n < 0x1_0000 && |body| == 8 + n
    ensures var eth := Ethernet(t.dstMac, t.srcMac, ETHTYPE_IPV4, IpHeader(t, n) + body + pad);
            ParseIp(EthHeader(t) + (IpHeader(t, n) + body + pad)) == Some(Ip(eth, t.srcIp, t.dstIp, IPPROTO_UDP, body))
  {
    hide Summed, IpHeaderWith, IpHeaderOk, Read16, Read32, ParseEth, EthHeader;
    var h := IpHeader(t, n);
    var p := h + body + pad;
    EthParses(t, p);
    IpHeaderFields(t, n, Summed(0, IpFront(n) + [0, 0] + IpBack(t)));
    IpHeaderChecks(t, n);
    assert p[..20] == h && p[20..28 + n] == body;
    LongerOk(h, 28 + n, |p|);
  }

  lemma LongerOk(h: seq<Byte>, a: nat, b: nat)
    requires |h| == 20 && IpHeaderOk(h, a) && a <= b
    ensures IpHeaderOk(h, b)
  {
  }

  lemma UdpSlices(t: Route, m: seq<Byte>)
    ensures var p := UdpHeader(t, |m|) + m;
            && |p| == 8 + |m| && p[0..2] == BigBytes(t.srcPort) && p[2..4] == BigBytes(t.dstPort)
            && p[4..6] == BigBytes(8 + |m|) && p[6..8] == BigBytes(0) && p[8..8 + |m|] == m
  {
    var a, b, c := BigBytes(t.srcPort), BigBytes(t.dstPort), BigBytes(8 + |m|);
    var z: seq<Byte> := [0, 0];
    assert |a| == |b| == |c| == 2 && BigBytes(0) == z;
    var p := UdpHeader(t, |m|) + m;
    assert p == a + b + c + z + m;
    hide BigBytes, UdpHeader;
    assert p[0..2] == a && p[2..4] == b && p[4..6] == c && p[6..8] == z && p[8..8 + |m|] == m;
  }

  lemma UdpFields(t: Route, m: seq<Byte>)
    requires RouteOk(t) && 8 + |m| < 0x1_0000
    ensures var p := UdpHeader(t, |m|) + m;
            && |p| == 8 + |m| && Read16(p, 0) == t.srcPort && Read16(p, 2) == t.dstPort && Read16(p, 4) == 8 + |m|
            && Read16(p, 6) == 0 && p[8..8 + |m|] == m
  {
    hide BigBytes, UdpHeader, Read16;
    var p := UdpHeader(t, |m|) + m;
    UdpSlices(t, m);
    Read16Bytes(p, 0, t.srcPort);
    Read16Bytes(p, 2, t.dstPort);
    Read16Bytes(p, 4, 8 + |m|);
    Read16Bytes(p, 6, 0);
  }

  lemma ByteSize(x: nat)
    ensures |BigBytes(x)| == 2
  {
  }

  /** Headers built for a message, the message, and any padding of the frame parse as UDP to
      the same addresses, ports and message. */
  lemma BuildThenParse(t: Route, m: seq<Byte>, pad: seq<Byte>)
    requires RouteOk(t) && |m| <= 1472
    ensures var u := ParseUdp(Headers(t, |m|) + m + pad);
            && u.Some? && u.value.srcPort == t.srcPort && u.value.dstPort == t.dstPort && u.value.payload == m
            && u.value.ip.srcIp == t.srcIp && u.value.ip.dstIp == t.dstIp && u.value.ip.protocol == IPPROTO_UDP
            && u.value.ip.eth.srcMac == t.srcMac && u.value.ip.eth.dstMac == t.dstMac
  {
    hide EthHeader, IpHeader, UdpHeader, ParseIp, Read16, Summed;
    var body := UdpHeader(t, |m|) + m;
    HeaderSizes(t, |m|);
    UdpFields(t, m);
    IpParses(t, |m|, body, pad);
    assert Headers(t, |m|) + m + pad == EthHeader(t) + (IpHeader(t, |m|) + body + pad);
  }

  /** What RFC 768 sums: the pseudo header and as many bytes as the UDP length says. */
  function Datagram(ip: Ip, length: nat): seq<Byte>
    requires length <= |ip.payload|
  {
    Pseudo(ip, length) + ip.payload[..length]
  }

  /** The datagram has a right checksum by RFC 768. */
  predicate Right(ip: Ip, length: nat)
    requires length <= |ip.payload|
  {
    Internet(Datagram(ip, length)) == 0
  }

  /** What the check of a nonzero checksum comes to: it covers the pseudo header and the whole IP
      payload, whatever the UDP length says. If the payload has an odd length and a nonzero last
      byte, what is accepted is wrong and what is right is rejected. */
  lemma UdpChecksumCovers(ip: Ip, length: nat)
    requires 8 <= |ip.payload| <= 65535 && Read16(ip.payload, 6) != 0
    ensures Summable(ip.payload) ==> (UdpChecksumOk(ip, length) <==> Internet(Pseudo(ip, length) + ip.payload) == 0)
    ensures !Summable(ip.payload) ==> !(UdpChecksumOk(ip, length) && Internet(Pseudo(ip, length) + ip.payload) == 0)
  {
    hide Summed, Internet, LittleSum, Read16, Summable;
    PseudoSize(ip, length);
    hide Pseudo;
    ShortNoWrap(Pseudo(ip, length), ip.payload);
    StartedIsInternet(Pseudo(ip, length), ip.payload);
  }

  /** A datagram that fills the IP payload: a right one is accepted, and an accepted one is
      right, if and only if the length is even or the last byte is zero. */
  lemma UdpChecksumExact(ip: Ip, length: nat)
    requires 8 <= length == |ip.payload| <= 65535 && Read16(ip.payload, 6) != 0
    ensures Right(ip, length) ==> (UdpChecksumOk(ip, length) <==> Summable(ip.payload))
    ensures UdpChecksumOk(ip, length) ==> (Right(ip, length) <==> Summable(ip.payload))
  {
    hide Summed, Internet, Pseudo, Read16, UdpChecksumOk, Summable;
    UdpChecksumCovers(ip, length);
    assert ip.payload[..length] == ip.payload;
  }

  /** A right datagram of even length with more bytes behind it is accepted if and only if
      those sum to a multiple of 65535. */
  lemma UdpChecksumRest(ip: Ip, length: nat)
    requires 8 <= length <= |ip.payload| <= 65535 && length % 2 == 0 && Read16(ip.payload, 6) != 0
    requires Summable(ip.payload) && Right(ip, length)
    ensures UdpChecksumOk(ip, length) <==> BigSum(ip.payload[length..]) % 65535 == 0
  {
    UdpChecksumCovers(ip, length);
    PseudoSize(ip, length);
    hide Summed, Internet, BigSum, Residue, Pseudo, Read16, UdpChecksumOk, Summable;
    var d, rest := Datagram(ip, length), ip.payload[length..];
    assert Pseudo(ip, length) + ip.payload == d + rest;
    BigSplit(d, rest);
    InternetRange(d);
    InternetRange(d + rest);
    ZeroTail(BigSum(d), BigSum(rest));
  }

  lemma ZeroTail(s: nat, r: nat)
    ensures Residue(s) == 65535 ==> (Residue(s + r) == 65535 <==> r % 65535 == 0)
  {
    hide Residue;
    var k := ResidueOf(s);
    var n := ResidueOf(s + r);
    var q := r / 65535;
    if Residue(s) == 65535 && r % 65535 == 0 { ResidueUnique(s + r, 65535, k + q); }
  }

  /** Two bytes behind an empty datagram make the check reject one with a right checksum and
      accept one with a wrong checksum. */
  lemma UdpChecksumWrong(eth: Ethernet)
    ensures var ip := Ip(eth, 0, 0, 0, [0, 0, 0, 0, 0, 8, 0xff, 0xef, 0, 1]);
            Right(ip, 8) && !UdpChecksumOk(ip, 8)
    ensures var ip := Ip(eth, 0, 0, 0, [0, 0, 0, 0, 0, 8, 0xff, 0xee, 0, 1]);
            !Right(ip, 8) && UdpChecksumOk(ip, 8)
  {
    WrongAt(eth, 0xef);
    WrongAt(eth, 0xee);
  }

  lemma WrongAt(eth: Ethernet, low: Byte)
    requires low == 0xef || low == 0xee
    ensures var ip := Ip(eth, 0, 0, 0, [0, 0, 0, 0, 0, 8, 0xff, low, 0, 1]);
            (Right(ip, 8) <==> low == 0xef) && (UdpChecksumOk(ip, 8) <==> low == 0xee)
  {
    hide Summed, Internet, Pseudo, UdpChecksumOk, Read16, BigSum, Summable;
    var b: seq<Byte> := [0, 0, 0, 0, 0, 8, 0xff, low, 0, 1];
    TenBytes(b, low);
    RestDecides(Ip(eth, 0, 0, 0, b), low);
  }

  lemma TenBytes(b: seq<Byte>, low: Byte)
    requires b == [0, 0, 0, 0, 0, 8, 0xff, low, 0, 1]
    ensures |b| == 10 && Read16(b, 6) != 0 && Summable(b) && BigSum(b[..8]) == 0xff08 + low && BigSum(b[8..]) == 1
  {
    EightSum(b[..8]);
    assert b[8..] == [0, 1] && b[8..][2..] == [];
  }

  lemma RestDecides(ip: Ip, low: Byte)
    requires ip.srcIp == ip.dstIp == ip.protocol == 0 && (low == 0xef || low == 0xee)
    requires |ip.payload| == 10 && Read16(ip.payload, 6) != 0 && Summable(ip.payload)
    requires BigSum(ip.payload[..8]) == 0xff08 + low && BigSum(ip.payload[8..]) == 1
    ensures (Right(ip, 8) <==> low == 0xef) && (UdpChecksumOk(ip, 8) <==> low == 0xee)
  {
    hide Summed, Internet, Pseudo, UdpChecksumOk, Read16, BigSum, Summable;
    UdpChecksumCovers(ip, 8);
    var p, head, rest := Pseudo(ip, 8), ip.payload[..8], ip.payload[8..];
    assert p + ip.payload == p + head + rest;
    ZeroPseudo(ip);
    CheckSums(p, head, rest);
  }

  lemma CheckSums(p: seq<Byte>, head: seq<Byte>, rest: seq<Byte>)
    requires |p| == 12 && |head| == 8 && 0 < BigSum(p) + BigSum(head) <= 65535 && BigSum(rest) == 1
    ensures Internet(p + head) == 0 <==> BigSum(p) + BigSum(head) == 65535
    ensures Internet(p + head + rest) == 0 <==> BigSum(p) + BigSum(head) == 65534
  {
    hide Internet, BigSum;
    BigSplit(p, head);
    BigSplit(p + head, rest);
    InternetRange(p + head);
    InternetRange(p + head + rest);
  }

  lemma ZeroPseudo(ip: Ip)
    requires ip.srcIp == ip.dstIp == ip.protocol == 0
    ensures |Pseudo(ip, 8)| == 12 && BigSum(Pseudo(ip, 8)) == 8
  {
    assert Digits(0, 2) == [0, 0] && Digits(0, 4) == Digits(0, 2) + [0, 0];
    var front: seq<Byte> := [0, 0, 0, 0, 0, 0, 0, 0];
    var back: seq<Byte> := [0, 0, 0, 8];
    assert Pseudo(ip, 8) == front + back;
    hide Pseudo, Digits;
    EightSum(front);
    assert back[2..][2..] == [] && BigSum(back) == 8;
    BigSplit(front, back);
  }

  lemma EightSum(b: seq<Byte>)
    requires |b| == 8
    ensures BigSum(b) == BigWord(b[0], b[1]) + BigWord(b[2], b[3]) + BigWord(b[4], b[5]) + BigWord(b[6], b[7])
  {
    hide BigWord;
    var c, d := b[..4], b[4..];
    assert b == c + d && c[2..][2..] == [] && d[2..][2..] == [];
    BigSplit(c, d);
  }

  lemma PseudoSize(ip: Ip, length: nat)
    ensures |Pseudo(ip, length)| == 12
  {
  }

  /** An accepted IP header has a zero Internet checksum, and the parts returned are the parts
      of the frame. */
  lemma IpAccepted(raw: seq<Byte>)
    requires ParseIp(raw).Some?
    ensures var p := ParseIp(raw).value;
            && |raw| >= 34 && Internet(raw[14..34]) == 0 && Read16(raw, 12) == ETHTYPE_IPV4
            && 20 <= Read16(raw, 16) && 14 + Read16(raw, 16) <= |raw| && p.payload == raw[34..14 + Read16(raw, 16)]
            && p.srcIp == Read32(raw, 26) && p.dstIp == Read32(raw, 30) && p.protocol == raw[23]
            && p.eth.dstMac == raw[0..6] && p.eth.srcMac == raw[6..12] && p.eth.payload == raw[14..]
  {
    hide Summed, Internet, Read16, Read32, IpHeaderOk;
    var p := raw[14..];
    var h := p[..20];
    TailSlices(raw, 14, 20, 20);
    ChecksumIsInternet(h);
    EthParts(raw);
    hide ParseEth;
    ReadShifted(raw, h);
    HeaderBounds(h, |p|);
    TailSlices(raw, 14, 20, Read16(raw, 16));
  }

  /** The tests an IP packet has to pass, bit by bit as the code makes them: an Ethernet type of
      IPv4, version 4, a header of 5 words, the first and the last of the three flags clear, a
      fragment offset of zero, a total length that covers the header and fits in the frame, and a
      header that checks. */
  predicate IpFrame(raw: seq<Byte>) {
    && |raw| >= 34 && Read16(raw, 12) == ETHTYPE_IPV4
    && raw[14] / 16 == 4 && raw[14] % 16 == 5
    && raw[20] / 32 / 4 == 0 && raw[20] / 32 % 2 == 0 && Read16(raw, 20) % 0x2000 == 0
    && 20 <= Read16(raw, 16) <= |raw| - 14 && Internet(raw[14..34]) == 0
  }

  /** A frame is accepted as IP exactly when it passes them. */
  lemma IpExact(raw: seq<Byte>)
    ensures ParseIp(raw).Some? <==> IpFrame(raw)
  {
    hide Summed, Internet, Read16, IpHeaderOk;
    if |raw| >= 34 {
      var p := raw[14..];
      var h := p[..20];
      TailSlices(raw, 14, 20, 20);
      ChecksumIsInternet(h);
      HeaderTests(raw, h, |p|);
    }
  }

  lemma HeaderTests(raw: seq<Byte>, h: seq<Byte>, available: nat)
    requires |raw| >= 34 && h == raw[14..34]
    ensures IpHeaderOk(h, available) <==>
              && raw[14] / 16 == 4 && raw[14] % 16 == 5
              && raw[20] / 32 / 4 == 0 && raw[20] / 32 % 2 == 0 && Read16(raw, 20) % 0x2000 == 0
              && 20 <= Read16(raw, 16) <= available
  {
    HeaderBits(h);
    assert h[0] == raw[14] && h[2] == raw[16] && h[3] == raw[17] && h[6] == raw[20] && h[7] == raw[21];
    assert Read16(h, 6) == Read16(raw, 20) && Read16(h, 2) == Read16(raw, 16);
    hide Read16;
  }

  /** The pseudo header of RFC 768, put together from the bytes of a frame. */
  function FramePseudo(raw: seq<Byte>): seq<Byte>
    requires |raw| >= 40
  {
    raw[26..34] + [0, raw[23]] + raw[38..40]
  }

  /** The tests a UDP packet has to pass besides: room for a UDP header, a UDP length that covers
      that header and fits in the IP payload, and a checksum that is unused or checks, as the code
      sums pseudo header and IP payload. */
  predicate UdpFrame(raw: seq<Byte>) {
    && IpFrame(raw) && Read16(raw, 16) >= 28 && 8 <= Read16(raw, 38) <= Read16(raw, 16) - 20
    && (Read16(raw, 40) == 0 || Internet(FramePseudo(raw) + AsSummed(raw[34..14 + Read16(raw, 16)])) == 0)
  }

  /** A frame is accepted as UDP exactly when it passes these, and the parts returned are the parts
      of the frame. */
  lemma UdpExact(raw: seq<Byte>)
    ensures ParseUdp(raw).Some? <==> UdpFrame(raw)
    ensures ParseUdp(raw).Some? ==>
              var u := ParseUdp(raw).value;
              && ParseIp(raw) == Some(u.ip) && u.srcPort == Read16(raw, 34) && u.dstPort == Read16(raw, 36)
              && u.payload == raw[42..34 + Read16(raw, 38)]
  {
    hide Summed, Internet, Read16, Read32, ParseIp, IpFrame, UdpChecksumOk, AsSummed, FramePseudo;
    IpExact(raw);
    if ParseIp(raw).Some? {
      IpAccepted(raw);
      var ip, n := ParseIp(raw).value, Read16(raw, 16);
      if n >= 28 {
        UdpFieldsAt(raw, n);
        UdpSummed(raw, ip);
        var length := Read16(raw, 38);
        if 8 <= length <= n - 20 { Subslice(raw, 34, 14 + n, 8, length); }
      }
    }
  }

  lemma UdpFieldsAt(raw: seq<Byte>, n: nat)
    requires 28 <= n && 14 + n <= |raw|
    ensures var p := raw[34..14 + n];
            && Read16(p, 0) == Read16(raw, 34) && Read16(p, 2) == Read16(raw, 36) && Read16(p, 4) == Read16(raw, 38)
            && Read16(p, 6) == Read16(raw, 40)
  {
    var p := raw[34..14 + n];
    assert forall i :: 0 <= i < 8 ==> p[i] == raw[34 + i];
  }

  lemma UdpSummed(raw: seq<Byte>, ip: Ip)
    requires |raw| >= 42 && 28 <= Read16(raw, 16) <= |raw| - 14 && ip.payload == raw[34..14 + Read16(raw, 16)]
    requires ip.srcIp == Read32(raw, 26) && ip.dstIp == Read32(raw, 30) && ip.protocol == raw[23]
    ensures UdpChecksumOk(ip, Read16(raw, 38)) <==>
              Read16(raw, 40) == 0 || Internet(FramePseudo(raw) + AsSummed(ip.payload)) == 0
  {
    Word16(raw, 16);
    UdpFieldsAt(raw, Read16(raw, 16));
    PseudoBytes(raw, ip);
    hide Summed, Internet, LittleSum, Read16, Read32, AsSummed, FramePseudo;
    var length := Read16(raw, 38);
    PseudoSize(ip, length);
    hide Pseudo;
    ShortNoWrap(Pseudo(ip, length), ip.payload);
    SummedExactly(Pseudo(ip, length), ip.payload);
  }

  lemma Word16(b: seq<Byte>, i: nat)
    requires i + 2 <= |b|
    ensures Read16(b, i) < 0x1_0000 && BigBytes(Read16(b, i)) == b[i..i + 2]
  {
  }

  lemma PseudoBytes(raw: seq<Byte>, ip: Ip)
    requires |raw| >= 42 && ip.srcIp == Read32(raw, 26) && ip.dstIp == Read32(raw, 30) && ip.protocol == raw[23]
    ensures Pseudo(ip, Read16(raw, 38)) == FramePseudo(raw)
  {
    Word16(raw, 38);
    DigitsOfValue(raw[26..30]);
    DigitsOfValue(raw[30..34]);
    hide Digits, Value, Read16, BigBytes;
    assert raw[26..34] == raw[26..30] + raw[30..34];
  }

  lemma EthParts(raw: seq<Byte>)
    ensures ParseEth(raw).Some? <==> |raw| >= 14
    ensures |raw| >= 14 ==> ParseEth(raw).value == Ethernet(raw[0..6], raw[6..12], Read16(raw, 12), raw[14..])
  {
  }

  lemma HeaderBounds(h: seq<Byte>, n: nat)
    requires |h| == 20 && IpHeaderOk(h, n)
    ensures 20 <= Read16(h, 2) <= n
  {
  }

  /** A slice of a slice. */
  lemma Subslice(b: seq<Byte>, lo: nat, hi: nat, i: nat, j: nat)
    requires i <= j && lo + j <= hi <= |b|
    ensures b[lo..hi][i..j] == b[lo + i..lo + j]
  {
    var inner, outer := b[lo..hi][i..j], b[lo + i..lo + j];
    assert |inner| == |outer|;
    assert forall k :: 0 <= k < |inner| ==> inner[k] == outer[k];
  }

  /** Slices of a tail. */
  lemma TailSlices(b: seq<Byte>, lo: nat, i: nat, j: nat)
    requires i <= j && lo + j <= |b|
    ensures b[lo..][..i] == b[lo..lo + i] && b[lo..][i..j] == b[lo + i..lo + j]
  {
    var tail := b[lo..];
    assert tail == b[lo..|b|] && tail[..i] == tail[0..i];
    Subslice(b, lo, |b|, 0, i);
    Subslice(b, lo, |b|, i, j);
  }

  lemma ReadShifted(raw: seq<Byte>, h: seq<Byte>)
    requires |raw| >= 34 && h == raw[14..34]
    ensures Read16(h, 2) == Read16(raw, 16) && Read32(h, 12) == Read32(raw, 26) && Read32(h, 16) == Read32(raw, 30)
    ensures h[9] == raw[23]
  {
    hide Value;
    assert h[2] == raw[16] && h[3] == raw[17];
    Subslice(raw, 14, 34, 12, 16);
    Subslice(raw, 14, 34, 16, 20);
  }

  // ----- the packet buffer -----

  const BUFFER: nat := 4096

  class Packet {
    const raw: array<Byte>
    var length: nat

    ghost predicate Valid()
      reads this
    {
      raw.Length == BUFFER && length <= 1514
    }

    constructor ()
      ensures Valid() && length == 0 && fresh(raw)
    {
      raw := new Byte[BUFFER](_ => 0);
      length := 0;
    }

    method SetLen(len: nat) returns (r: Outcome<()>)
      requires Valid()
      modifies this
      ensures Valid() && (r.Panicked? <==> len > 1514)
      ensures length == if len <= 1514 then len else old(length)
    {
      if !(len <= 1514 && len <= raw.Length) { return Panicked; }
      length := len;
      return Returned(());
    }

    /** Copies bytes into the buffer. */
    method Put(at: nat, bytes: seq<Byte>)
      requires Valid() && at + |bytes| <= BUFFER
      modifies raw
      ensures raw[..at + |bytes|] == old(raw[..at]) + bytes
      ensures forall k :: at + |bytes| <= k < raw.Length ==> raw[k] == old(raw[k])
    {
      for i := 0 to |bytes|
        invariant raw[..at] == old(raw[..at]) && raw[at..at + i] == bytes[..i]
        invariant forall k :: at + i <= k < raw.Length ==> raw[k] == old(raw[k])
      {
        raw[at + i] := bytes[i];
        assert bytes[..i + 1] == bytes[..i] + [bytes[i]];
      }
      assert raw[..at + |bytes|] == raw[..at] + raw[at..at + |bytes|];
    }

    method PutEth(t: Route)
      requires Valid() && RouteOk(t)
      modifies raw
      ensures raw[..14] == EthHeader(t)
      ensures forall k :: 14 <= k < raw.Length ==> raw[k] == old(raw[k])
    {
      hide BigBytes;
      ByteSize(ETHTYPE_IPV4);
      Put(0, t.dstMac);
      Put(6, t.srcMac);
      Put(12, BigBytes(ETHTYPE_IPV4));
    }

    /** The IP header with its checksum field zero, then the checksum over it. */
    method PutIp(t: Route, messageLen: nat)
      requires Valid() && RouteOk(t)
      modifies raw
      ensures raw[..34] == old(raw[..14]) + IpHeader(t, messageLen)
      ensures forall k :: 34 <= k < raw.Length ==> raw[k] == old(raw[k])
    {
      hide BigBytes, Summed, Internet;
      ghost var pre := raw[..14];
      PutFront(messageLen);
      PutBack(t);
      ghost var a, z := IpFront(messageLen), IpBack(t);
      ghost var zero: seq<Byte> := [0, 0];
      FrontSizes(t, messageLen);
      assert raw[..34] == pre + a + zero + z;
      assert raw[14..34] == a + zero + z;
      var checksum := Checksum(0, raw[14..34]);
      ByteSize(checksum);
      ghost var field := BigBytes(checksum);
      assert raw[..24] == pre + a && raw[26..34] == z;
      Put(24, BigBytes(checksum));
      assert raw[26..34] == z;
      assert raw[..34] == raw[..26] + raw[26..34];
      assert raw[..34] == pre + (a + field + z);
    }

    method PutFront(messageLen: nat)
      requires Valid()
      modifies raw
      ensures raw[..26] == old(raw[..14]) + IpFront(messageLen) + [0, 0]
      ensures forall k :: 26 <= k < raw.Length ==> raw[k] == old(raw[k])
    {
      var ipSize := (20 + 8 + messageLen) % 0x1_0000;
      Truncated(28 + messageLen);
      hide BigBytes;
      ByteSize(ipSize);
      Put(14, [0x45]);
      Put(15, [0]);
      Put(16, BigBytes(ipSize));
      Put(18, [0, 0, 0, 0]);
      Put(22, [64]);
      Put(23, [IPPROTO_UDP]);
      Put(24, [0, 0]);
    }

    method PutBack(t: Route)
      requires Valid()
      modifies raw
      ensures raw[..34] == old(raw[..26]) + IpBack(t)
      ensures forall k :: 34 <= k < raw.Length ==> raw[k] == old(raw[k])
    {
      hide Digits;
      Put(26, Digits(t.srcIp, 4));
      Put(30, Digits(t.dstIp, 4));
    }

    method PutUdp(t: Route, messageLen: nat)
      requires Valid()
      modifies raw
      ensures raw[..42] == old(raw[..34]) + UdpHeader(t, messageLen)
      ensures forall k :: 42 <= k < raw.Length ==> raw[k] == old(raw[k])
    {
      var udpSize := (8 + messageLen) % 0x1_0000;
      Truncated(8 + messageLen);
      hide BigBytes;
      ByteSize(t.srcPort);
      ByteSize(t.dstPort);
      ByteSize(udpSize);
      Put(34, BigBytes(t.srcPort));
      Put(36, BigBytes(t.dstPort));
      Put(38, BigBytes(udpSize));
      Put(40, [0, 0]);
    }

    /** Builds the headers for a message of the given length and sets the length of the packet.
        The message goes to the index returned. Lengths are machine words: one that does not
        fit in the packet panics, unless adding the headers wraps around to one that does. */
    method CreateUdpRaw(t: Route, messageLen: nat) returns (r: Outcome<nat>)
      requires Valid() && RouteOk(t) && messageLen < USIZE
      modifies this, raw
      ensures Valid() && (r.Panicked? <==> (42 + messageLen) % USIZE > 1514)
      ensures raw[..42] == Headers(t, messageLen)
      ensures forall k :: 42 <= k < raw.Length ==> raw[k] == old(raw[k])
      ensures r.Returned? ==> r.value == 42 && length == (42 + messageLen) % USIZE
    {
      hide EthHeader, IpHeader, UdpHeader;
      HeaderSizes(t, messageLen);
      PutEth(t);
      PutIp(t, messageLen);
      PutUdp(t, messageLen);
      var fits := SetLen((14 + 20 + 8 + messageLen) % USIZE);
      if fits.Panicked? { return Panicked; }
      return Returned(14 + 20 + 8);
    }
  }

  lemma FrontSizes(t: Route, n: nat)
    ensures |IpFront(n)| == 10 && |IpBack(t)| == 8
  {
  }

  /** A packet built for a message that fits, with the message put at the index returned,
      parses back to what it was built from. */
  method SendPath(p: Packet, t: Route, m: seq<Byte>) returns (ghost u: Option<Udp>)
    requires p.Valid() && RouteOk(t) && |m| <= 1472
    modifies p, p.raw
    ensures p.Valid() && p.length == 42 + |m|
    ensures u == ParseUdp(p.raw[..p.length])
    ensures u.Some? && u.value.payload == m && u.value.srcPort == t.srcPort && u.value.dstPort == t.dstPort
    ensures u.value.ip.srcIp == t.srcIp && u.value.ip.dstIp == t.dstIp
  {
    hide ParseUdp, Headers;
    var at := p.CreateUdpRaw(t, |m|);
    ghost var pad: seq<Byte> := [];
    BuildThenParse(t, m, pad);
    p.Put(at.value, m);
    assert p.raw[..p.length] == Headers(t, |m|) + m + pad;
    u := ParseUdp(p.raw[..p.length]);
  }
}
