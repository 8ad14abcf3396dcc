/** Decoding of a captured Ethernet, IPv4 and TCP frame, after RFC 791 and RFC 9293, section 3.1 of each. */
module Packet {
  import opened Bytes
  import opened Wrappers

  type Octets = seq<bv8>

  const SIZE_ETHERNET: nat := 14
  const IPPROTO_TCP: bv8 := 6

  // ---------- Header fields ----------

  /** The macro IP_HL: the header length nibble of the first byte. */
  function IpHl(vhl: bv8): (n: nat)
    ensures n < 16
  {
    LowNibble(vhl);
    (vhl & 0x0f) as nat
  }

  /** The macro TH_OFF: the data offset nibble. */
  function ThOff(offx2: bv8): (n: nat)
    ensures n < 16
  {
    HighNibble(offx2);
    ((offx2 & 0xf0) >> 4) as nat
  }

  lemma LowNibble(x: bv8)
    ensures (x & 0x0f) as nat < 16
  {
  }

  lemma HighNibble(x: bv8)
    ensures ((x & 0xf0) >> 4) as nat < 16
  {
  }

  lemma NibblesApart(hi: bv8, lo: bv8)
    requires hi < 16 && lo < 16
    ensures ((hi << 4) | lo) & 0x0f == lo && (((hi << 4) | lo) & 0xf0) >> 4 == hi
  {
  }

  /** The macros take apart a byte put together from two fields of four bits, each reading its own. */
  lemma HeaderNibbles(hi: bv8, lo: bv8)
    requires hi < 16 && lo < 16
    ensures IpHl((hi << 4) | lo) == lo as nat
    ensures ThOff((hi << 4) | lo) == hi as nat
  {
    NibblesApart(hi, lo);
  }

  /** The two bytes at offset i, most significant first. */
  function Be16(b: Octets, i: nat): bv16
    requires i + 2 <= |b|
  {
    (b[i] as bv16 << 8) | (b[i + 1] as bv16)
  }

  /** `ntohs` of a field. */
  function Ntohs(b: Octets, i: nat): (n: nat)
    requires i + 2 <= |b|
    ensures n < 0x1_0000
  {
    Be16(b, i) as nat
  }

  function EncodeBe16(n: bv16): (b: Octets)
    ensures |b| == 2
  {
    [(n >> 8) as bv8, (n & 0xff) as bv8]
  }

  /** The two bytes of an encoded number, wherever they stand, are that number. */
  lemma Be16At(b: Octets, i: nat, n: bv16)
    requires i + 2 <= |b| && b[i] == EncodeBe16(n)[0] && b[i + 1] == EncodeBe16(n)[1]
    ensures Be16(b, i) == n
  {
  }

  function Combined(a: bv8, b: bv8, c: bv8, d: bv8): bv32 {
    (a as bv32) | (b as bv32 << 8) | (c as bv32 << 16) | (d as bv32 << 24)
  }

  /** `s_addr` on a little-endian host: the first byte of the address is the least significant. */
  function Address(b: Octets, i: nat): bv32
    requires i + 4 <= |b|
  {
    Combined(b[i], b[i + 1], b[i + 2], b[i + 3])
  }

  lemma CombinedBytes(a: bv8, b: bv8, c: bv8, d: bv8)
    ensures Combined(a, b, c, d) & 0xff == a as bv32
    ensures (Combined(a, b, c, d) >> 8) & 0xff == b as bv32
    ensures (Combined(a, b, c, d) >> 16) & 0xff == c as bv32
    ensures Combined(a, b, c, d) >> 24 == d as bv32
  {
  }

  /** Byte j of a loaded address, from the least significant, is the j-th byte in the packet. */
  lemma AddressBytes(b: Octets, i: nat)
    requires i + 4 <= |b|
    ensures Address(b, i) & 0xff == b[i] as bv32
    ensures (Address(b, i) >> 8) & 0xff == b[i + 1] as bv32
    ensures (Address(b, i) >> 16) & 0xff == b[i + 2] as bv32
    ensures Address(b, i) >> 24 == b[i + 3] as bv32
  {
    hide Combined;
    CombinedBytes(b[i], b[i + 1], b[i + 2], b[i + 3]);
  }

  // ---------- Decoding ----------

  datatype Decoded = BadIpHeader | NotTcp(protocol: bv8) | BadTcpHeader | NoPayload | Payload(bytes: Octets)

  function SizeIp(packet: Octets): nat
    requires |packet| > SIZE_ETHERNET
  {
    4 * IpHl(packet[SIZE_ETHERNET])
  }

  /** Whether everything that the handler looks at was captured. */
  predicate Captured(packet: Octets) {
    && |packet| > SIZE_ETHERNET
    && (SizeIp(packet) >= 20 ==>
          && |packet| >= SIZE_ETHERNET + 20
          && (packet[SIZE_ETHERNET + 9] == IPPROTO_TCP ==>
                var tcp := SIZE_ETHERNET + SizeIp(packet);
                && |packet| > tcp + 12
                && (ThOff(packet[tcp + 12]) * 4 >= 20 ==> |packet| >= SIZE_ETHERNET + Ntohs(packet, SIZE_ETHERNET + 2))))
  }

  function Decode(packet: Octets): Decoded
    requires Captured(packet)
  {
    var sizeIp := SizeIp(packet);
    if sizeIp < 20 then BadIpHeader
    else if packet[SIZE_ETHERNET + 9] != IPPROTO_TCP then NotTcp(packet[SIZE_ETHERNET + 9])
    else
      var sizeTcp := ThOff(packet[SIZE_ETHERNET + sizeIp + 12]) * 4;
      if sizeTcp < 20 then BadTcpHeader
      else
        var from := SIZE_ETHERNET + sizeIp + sizeTcp;
        var size := Ntohs(packet, SIZE_ETHERNET + 2) as int - (sizeIp + sizeTcp);
        if size > 0 then Payload(packet[from..from + size]) else NoPayload
  }

  /** Which captured packets are given up for their header lengths: a nibble below five, in either header. */
  lemma HeaderErrors(packet: Octets)
    requires Captured(packet)
    ensures Decode(packet).BadIpHeader? <==> IpHl(packet[14]) < 5
    ensures IpHl(packet[14]) >= 5 ==>
              && |packet| >= 34 && (Decode(packet).NotTcp? <==> packet[23] != 6)
              && (packet[23] == 6 ==>
                    && |packet| > 14 + 4 * IpHl(packet[14]) + 12
                    && (Decode(packet).BadTcpHeader? <==> ThOff(packet[14 + 4 * IpHl(packet[14]) + 12]) < 5))
  {
    hide IpHl, ThOff, Ntohs;
  }

  // ---------- Frames ----------

  datatype Frame = Frame(
    ethernet: Octets,
    ihl: bv8, tos: bv8, total: bv16, id: bv16, fragment: bv16, ttl: bv8, protocol: bv8, ipSum: bv16,
    src: Octets, dst: Octets, ipOptions: Octets,
    sport: bv16, dport: bv16, seqNumber: Octets, ackNumber: Octets, offset: bv8, reserved: bv8, flags: bv8,
    window: bv16, tcpSum: bv16, urgent: bv16, tcpOptions: Octets,
    payload: Octets, padding: Octets)

  /** The length fields count the headers with their options, and the total length leaves out the padding. */
  ghost predicate WellFormed(f: Frame) {
    && |f.ethernet| == SIZE_ETHERNET
    && |f.src| == |f.dst| == |f.seqNumber| == |f.ackNumber| == 4
    && f.ihl < 16 && f.offset < 16 && f.reserved < 16
    && 4 * f.ihl as nat == 20 + |f.ipOptions|
    && 4 * f.offset as nat == 20 + |f.tcpOptions|
    && f.total as nat == 4 * f.ihl as nat + 4 * f.offset as nat + |f.payload|
  }

  function IpFixed(f: Frame): Octets {
    [0x40 | f.ihl, f.tos] + EncodeBe16(f.total) + EncodeBe16(f.id) + EncodeBe16(f.fragment)
    + [f.ttl, f.protocol] + EncodeBe16(f.ipSum) + f.src + f.dst
  }

  function TcpFixed(f: Frame): Octets {
    EncodeBe16(f.sport) + EncodeBe16(f.dport) + f.seqNumber + f.ackNumber + [(f.offset << 4) | f.reserved, f.flags]
    + EncodeBe16(f.window) + EncodeBe16(f.tcpSum) + EncodeBe16(f.urgent)
  }

  function Encode(f: Frame): Octets {
    f.ethernet + IpFixed(f) + f.ipOptions + TcpFixed(f) + f.tcpOptions + f.payload + f.padding
  }

  lemma IpFields(f: Frame)
    requires WellFormed(f)
    ensures |IpFixed(f)| == 20
    ensures IpHl(IpFixed(f)[0]) == f.ihl as nat
    ensures IpFixed(f)[9] == f.protocol
    ensures IpFixed(f)[12..16] == f.src
  {
    HeaderNibbles(4, f.ihl);
    assert (4 as bv8) << 4 == 0x40;
    hide EncodeBe16;
  }

  lemma TotalField(f: Frame)
    requires WellFormed(f)
    ensures |IpFixed(f)| == 20
    ensures IpFixed(f)[2] == EncodeBe16(f.total)[0] && IpFixed(f)[3] == EncodeBe16(f.total)[1]
  {
    hide EncodeBe16;
  }

  lemma TcpFields(f: Frame)
    requires WellFormed(f)
    ensures |TcpFixed(f)| == 20
    ensures ThOff(TcpFixed(f)[12]) == f.offset as nat
  {
    HeaderNibbles(f.offset, f.reserved);
  }

  /** Where the pieces of a concatenation stand. */
  lemma Pieces(a: Octets, b: Octets, c: Octets, d: Octets, e: Octets, p: Octets, z: Octets)
    ensures var s := a + b + c + d + e + p + z;
      && |s| == |a| + |b| + |c| + |d| + |e| + |p| + |z|
      && s[|a|..|a| + |b|] == b
      && s[|a| + |b| + |c|..|a| + |b| + |c| + |d|] == d
      && s[|a| + |b| + |c| + |d| + |e|..|a| + |b| + |c| + |d| + |e| + |p|] == p
  {
  }

  lemma FrameLayout(f: Frame)
    requires WellFormed(f)
    ensures var b, ip, tcp := Encode(f), SIZE_ETHERNET, SIZE_ETHERNET + 4 * f.ihl as nat;
      && |b| >= SIZE_ETHERNET + f.total as nat
      && b[ip..ip + 20] == IpFixed(f)
      && tcp + 20 <= |b| && b[tcp..tcp + 20] == TcpFixed(f)
      && b[tcp + 4 * f.offset as nat..SIZE_ETHERNET + f.total as nat] == f.payload
  {
    IpFields(f);
    TcpFields(f);
    hide IpFixed, TcpFixed;
    Pieces(f.ethernet, IpFixed(f), f.ipOptions, TcpFixed(f), f.tcpOptions, f.payload, f.padding);
  }

  lemma SliceAt(s: Octets, from: nat, to: nat, k: nat)
    requires from <= to <= |s| && k < to - from
    ensures s[from..to][k] == s[from + k]
  {
  }

  lemma SliceOfSlice(s: Octets, from: nat, to: nat, i: nat, j: nat)
    requires from <= to <= |s| && i <= j <= to - from
    ensures s[from..to][i..j] == s[from + i..from + j]
  {
    var a, b := s[from..to][i..j], s[from + i..from + j];
    assert forall k :: 0 <= k < |a| ==> a[k] == b[k];
  }

  /** The IP fields that the handler looks at. */
  lemma IpFieldsInFrame(f: Frame)
    requires WellFormed(f)
    ensures var b, ip := Encode(f), SIZE_ETHERNET;
      && |b| >= ip + 20
      && IpHl(b[ip]) == f.ihl as nat
      && b[ip + 2] == IpFixed(f)[2] && b[ip + 3] == IpFixed(f)[3]
      && b[ip + 9] == f.protocol
      && b[ip + 12..ip + 16] == f.src
  {
    hide *;
    FrameLayout(f);
    IpFields(f);
    var b, ip := Encode(f), SIZE_ETHERNET;
    SliceAt(b, ip, ip + 20, 0);
    SliceAt(b, ip, ip + 20, 2);
    SliceAt(b, ip, ip + 20, 3);
    SliceAt(b, ip, ip + 20, 9);
    SliceOfSlice(b, ip, ip + 20, 12, 16);
  }

  /** And the TCP data offset. */
  lemma TcpFieldInFrame(f: Frame)
    requires WellFormed(f)
    ensures var b, tcp := Encode(f), SIZE_ETHERNET + 4 * f.ihl as nat;
      |b| >= tcp + 20 && ThOff(b[tcp + 12]) == f.offset as nat
  {
    FrameLayout(f);
    TcpFields(f);
    hide *;
    var b, tcp := Encode(f), SIZE_ETHERNET + 4 * f.ihl as nat;
    SliceAt(b, tcp, tcp + 20, 12);
  }

  lemma HeaderLengths(f: Frame)
    requires WellFormed(f)
    ensures f.ihl as nat >= 5 && f.offset as nat >= 5
    ensures f.total as nat == 4 * f.ihl as nat + 4 * f.offset as nat + |f.payload|
  {
  }

  /** Decoding depends only on the two header lengths, the total length and the protocol. */
  lemma DecodeAt(b: Octets, ihl: nat, offset: nat, total: nat, payload: Octets)
    requires ihl >= 5 && offset >= 5 && total == 4 * ihl + 4 * offset + |payload|
    requires |b| >= SIZE_ETHERNET + total
    requires IpHl(b[SIZE_ETHERNET]) == ihl
    requires ThOff(b[SIZE_ETHERNET + 4 * ihl + 12]) == offset
    requires Ntohs(b, SIZE_ETHERNET + 2) == total
    requires b[SIZE_ETHERNET + 4 * ihl + 4 * offset..SIZE_ETHERNET + total] == payload
    ensures Captured(b)
    ensures Decode(b) ==
            if b[SIZE_ETHERNET + 9] != IPPROTO_TCP then NotTcp(b[SIZE_ETHERNET + 9])
            else if payload == [] then NoPayload else Payload(payload)
  {
    hide IpHl, ThOff, Ntohs;
  }

  /** For any option lengths, decoding a TCP frame finds exactly its payload and never its padding; other protocols are left alone. */
  lemma {:induction false} FrameRoundTrip(f: Frame)
    requires WellFormed(f)
    ensures Captured(Encode(f))
    ensures Decode(Encode(f)) ==
            if f.protocol != IPPROTO_TCP then NotTcp(f.protocol)
            else if f.payload == [] then NoPayload else Payload(f.payload)
  {
    FrameLayout(f);
    IpFieldsInFrame(f);
    TcpFieldInFrame(f);
    TotalOfFrame(f);
    HeaderLengths(f);
    hide Encode, IpFixed, TcpFixed, IpHl, ThOff, Ntohs, Captured, Decode;
    DecodeAt(Encode(f), f.ihl as nat, f.offset as nat, f.total as nat, f.payload);
  }

  lemma {:induction false} TotalOfFrame(f: Frame)
    requires WellFormed(f)
    ensures |Encode(f)| >= SIZE_ETHERNET + 4
    ensures Ntohs(Encode(f), SIZE_ETHERNET + 2) == f.total as nat
  {
    IpFieldsInFrame(f);
    TotalField(f);
    hide Encode, IpFixed, WellFormed, EncodeBe16, Be16;
    Be16At(Encode(f), SIZE_ETHERNET + 2, f.total);
  }

  /** The source address that the handler compares is the one in the frame. */
  lemma SourceOfFrame(f: Frame)
    requires WellFormed(f)
    ensures |Encode(f)| >= SIZE_ETHERNET + 16
    ensures Address(Encode(f), SIZE_ETHERNET + 12) == Address(f.src, 0)
  {
    IpFieldsInFrame(f);
    hide Encode, IpHl, ThOff, IpFixed, TcpFixed, EncodeBe16, WellFormed, Combined;
    var b, i := Encode(f), SIZE_ETHERNET + 12;
    SliceAt(b, i, i + 4, 0);
    SliceAt(b, i, i + 4, 1);
    SliceAt(b, i, i + 4, 2);
    SliceAt(b, i, i + 4, 3);
  }
}
