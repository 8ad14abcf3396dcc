/** The packet handler: it counts packets of the untrusted network and dumps TCP payloads. */
module Sniffer {
  import opened Bytes
  import opened Wrappers
  import opened PrefixTest
  import opened Packet
  import opened HexDump
  import opened StopFlag

  const UINT_RANGE: nat := 0x1_0000_0000

  // ---------- The packet run ----------

  /** The packets whose header length is valid; only their sources are looked at. */
  predicate ValidHeader(packet: Octets)
    requires Captured(packet)
  {
    SizeIp(packet) >= 20
  }

  function Source(packet: Octets): bv32
    requires Captured(packet) && ValidHeader(packet)
  {
    Address(packet, SIZE_ETHERNET + 12)
  }

  ghost predicate AllCaptured(packets: seq<Octets>) {
    forall i :: 0 <= i < |packets| ==> Captured(packets[i])
  }

  /** How many packets have a source that satisfies `test`. */
  ghost function Tally(packets: seq<Octets>, test: bv32 -> bool): nat
    requires AllCaptured(packets)
  {
    if packets == [] then 0
    else
      var last := packets[|packets| - 1];
      Tally(packets[..|packets| - 1], test) + if ValidHeader(last) && test(Source(last)) then 1 else 0
  }

  lemma {:induction false} TallyMonotone(packets: seq<Octets>, p: bv32 -> bool, q: bv32 -> bool)
    requires AllCaptured(packets) && forall ip :: p(ip) ==> q(ip)
    ensures Tally(packets, p) <= Tally(packets, q)
  {
    if packets != [] {
      TallyMonotone(packets[..|packets| - 1], p, q);
    }
  }

  /** Over any run, the counter's tally is the number of sources with all bits of the network address, never less than the prefix's. */
  lemma CounterNeverUnder(packets: seq<Octets>, net: bv32, len: nat)
    requires AllCaptured(packets) && IsPrefixLen(len) && NoHostBits(net, Mask(len))
    ensures Tally(packets, ip => Counted(ip, net, Mask(len))) >= Tally(packets, ip => InCidr(ip, net, len))
    ensures Tally(packets, ip => Counted(ip, net, Mask(len))) == Tally(packets, ip => HasAllBits(ip, net))
  {
    hide *;
    var counted, member, superset := ip => Counted(ip, net, Mask(len)), ip => InCidr(ip, net, len), ip => HasAllBits(ip, net);
    forall ip ensures member(ip) ==> counted(ip) {
      if InCidr(ip, net, len) {
        MemberIsCounted(ip, net, len);
      }
    }
    forall ip ensures superset(ip) <==> counted(ip) {
      CountedMeaning(ip, net, Mask(len));
    }
    TallyMonotone(packets, member, counted);
    TallyMonotone(packets, superset, counted);
    TallyMonotone(packets, counted, superset);
  }

  // ---------- Sources byte by byte ----------

  lemma SameFirst(a: bv8, b: bv8, c: bv8, d: bv8, p: bv8, q: bv8, r: bv8, s: bv8)
    ensures SameByte(Combined(a, b, c, d), Combined(p, q, r, s), 0) <==> a == p
  {
  }

  lemma SameSecond(a: bv8, b: bv8, c: bv8, d: bv8, p: bv8, q: bv8, r: bv8, s: bv8)
    ensures SameByte(Combined(a, b, c, d), Combined(p, q, r, s), 8) <==> b == q
  {
  }

  lemma SameThird(a: bv8, b: bv8, c: bv8, d: bv8, p: bv8, q: bv8, r: bv8, s: bv8)
    ensures SameByte(Combined(a, b, c, d), Combined(p, q, r, s), 16) <==> c == r
  {
  }

  /** A loaded address is in a prefix of k whole bytes exactly when its first k bytes are the network's. */
  lemma InCidrBytes(a: Octets, n: Octets, k: nat)
    requires |a| == |n| == 4 && k <= 3
    ensures InCidr(Address(a, 0), Address(n, 0), 8 * k) <==> a[..k] == n[..k]
  {
    hide Combined, SameByte;
    SameFirst(a[0], a[1], a[2], a[3], n[0], n[1], n[2], n[3]);
    SameSecond(a[0], a[1], a[2], a[3], n[0], n[1], n[2], n[3]);
    SameThird(a[0], a[1], a[2], a[3], n[0], n[1], n[2], n[3]);
  }

  function And(x: bv32, y: bv32): bv32 {
    x & y
  }

  lemma CombinedAnd(a: bv8, b: bv8, c: bv8, d: bv8, p: bv8, q: bv8, r: bv8, s: bv8)
    ensures And(Combined(a, b, c, d), Combined(p, q, r, s)) == Combined(a & p, b & q, c & r, d & s)
  {
  }

  lemma CombinedEqual(a: bv8, b: bv8, c: bv8, d: bv8, p: bv8, q: bv8, r: bv8, s: bv8)
    ensures Combined(a, b, c, d) == Combined(p, q, r, s) <==> a == p && b == q && c == r && d == s
  {
  }

  lemma HasAllBitsIs(x: bv32, y: bv32)
    ensures HasAllBits(x, y) <==> And(x, y) == y
  {
  }

  /** Every bit of byte n is set in byte a. */
  predicate Covers(a: bv8, n: bv8) {
    a & n == n
  }

  lemma CombinedCovers(a: bv8, b: bv8, c: bv8, d: bv8, p: bv8, q: bv8, r: bv8, s: bv8)
    ensures And(Combined(a, b, c, d), Combined(p, q, r, s)) == Combined(p, q, r, s) <==>
            Covers(a, p) && Covers(b, q) && Covers(c, r) && Covers(d, s)
  {
    CombinedAnd(a, b, c, d, p, q, r, s);
    hide And, Combined;
    CombinedEqual(a & p, b & q, c & r, d & s, p, q, r, s);
  }

  /** Every bit of the network's bytes is set in the address's. */
  predicate CoversBytes(a: Octets, n: Octets)
    requires |a| == |n| == 4
  {
    forall j :: 0 <= j < 4 ==> Covers(a[j], n[j])
  }

  lemma HasAllBitsBytes(a: Octets, n: Octets)
    requires |a| == |n| == 4
    ensures HasAllBits(Address(a, 0), Address(n, 0)) <==> CoversBytes(a, n)
  {
    hide Combined, And, HasAllBits, Covers;
    CombinedCovers(a[0], a[1], a[2], a[3], n[0], n[1], n[2], n[3]);
    HasAllBitsIs(Address(a, 0), Address(n, 0));
  }

  lemma NoBitsBeyond(a: bv8, b: bv8, c: bv8, d: bv8)
    ensures NoHostBits(Combined(a, b, c, d), 0) <==> a == 0 && b == 0 && c == 0 && d == 0
    ensures NoHostBits(Combined(a, b, c, d), 0xff) <==> b == 0 && c == 0 && d == 0
    ensures NoHostBits(Combined(a, b, c, d), 0xffff) <==> c == 0 && d == 0
    ensures NoHostBits(Combined(a, b, c, d), 0xff_ffff) <==> d == 0
  {
  }

  /** A network has no host bits exactly when the bytes after its prefix are zero. */
  lemma NoHostBitsBytes(n: Octets, k: nat)
    requires |n| == 4 && k <= 3
    ensures NoHostBits(Address(n, 0), Mask(8 * k)) <==> forall j :: k <= j < 4 ==> n[j] == 0
  {
    hide Combined, NoHostBits, Mask;
    MaskValues();
    NoBitsBeyond(n[0], n[1], n[2], n[3]);
  }

  // ---------- Frames on the wire ----------

  ghost predicate AllWellFormed(frames: seq<Frame>) {
    forall i :: 0 <= i < |frames| ==> WellFormed(frames[i])
  }

  ghost function Encodings(frames: seq<Frame>): (packets: seq<Octets>)
    requires AllWellFormed(frames)
    ensures |packets| == |frames| && forall i :: 0 <= i < |frames| ==> packets[i] == Encode(frames[i])
  {
    seq(|frames|, i requires 0 <= i < |frames| => Encode(frames[i]))
  }

  /** How many frames have a source whose first k bytes are the network's. */
  ghost function FromNetwork(frames: seq<Frame>, n: Octets, k: nat): nat
    requires AllWellFormed(frames) && |n| == 4 && k <= 3
  {
    if frames == [] then 0
    else
      var last := frames[|frames| - 1];
      FromNetwork(frames[..|frames| - 1], n, k) + if last.src[..k] == n[..k] then 1 else 0
  }

  /** How many frames have a source whose bytes have every bit of the network's. */
  ghost function Covering(frames: seq<Frame>, n: Octets): nat
    requires AllWellFormed(frames) && |n| == 4
  {
    if frames == [] then 0
    else
      var last := frames[|frames| - 1];
      Covering(frames[..|frames| - 1], n) + if CoversBytes(last.src, n) then 1 else 0
  }

  lemma FrameSource(f: Frame)
    requires WellFormed(f)
    ensures |f.src| == 4 && Captured(Encode(f)) && ValidHeader(Encode(f))
    ensures Source(Encode(f)) == Address(f.src, 0)
  {
    FrameRoundTrip(f);
    SourceOfFrame(f);
    ValidLength(f);
    hide Encode, Captured, Decode, Address;
  }

  lemma ValidLength(f: Frame)
    requires WellFormed(f)
    ensures |Encode(f)| > SIZE_ETHERNET && SizeIp(Encode(f)) >= 20
  {
    IpFieldsInFrame(f);
    HeaderLengths(f);
    hide Encode, IpFixed, TcpFixed;
  }

  lemma LastFrame(frames: seq<Frame>, test: bv32 -> bool)
    requires AllWellFormed(frames) && frames != []
    ensures var before, last := frames[..|frames| - 1], frames[|frames| - 1];
      && AllWellFormed(before) && WellFormed(last) && |last.src| == 4
      && AllCaptured(Encodings(frames)) && AllCaptured(Encodings(before))
      && Tally(Encodings(frames), test) == Tally(Encodings(before), test) + if test(Address(last.src, 0)) then 1 else 0
  {
    hide WellFormed, Captured, Encode, Source, ValidHeader, Address;
    forall i | 0 <= i < |frames| ensures Captured(Encode(frames[i])) {
      FrameSource(frames[i]);
    }
    FrameSource(frames[|frames| - 1]);
    assert Encodings(frames)[..|frames| - 1] == Encodings(frames[..|frames| - 1]);
  }

  lemma {:induction false} TallyByBytes(frames: seq<Frame>, n: Octets, k: nat)
    requires AllWellFormed(frames) && |n| == 4 && k <= 3
    ensures AllCaptured(Encodings(frames))
    ensures Tally(Encodings(frames), ip => InCidr(ip, Address(n, 0), 8 * k)) == FromNetwork(frames, n, k)
    ensures Tally(Encodings(frames), ip => HasAllBits(ip, Address(n, 0))) == Covering(frames, n)
  {
    hide WellFormed, Captured, Encode, Address, InCidr, HasAllBits, CoversBytes;
    if frames != [] {
      var member, covers := (ip: bv32) => InCidr(ip, Address(n, 0), 8 * k), (ip: bv32) => HasAllBits(ip, Address(n, 0));
      LastFrame(frames, member);
      LastFrame(frames, covers);
      TallyByBytes(frames[..|frames| - 1], n, k);
      InCidrBytes(frames[|frames| - 1].src, n, k);
      HasAllBitsBytes(frames[|frames| - 1].src, n);
    }
  }

  /**
    For frames as they were sent and a network of k whole bytes and zeros, the tally is the number of
    frames whose source has every bit of the network's bytes, never less than the number from the network.
   */
  lemma FramesCounted(frames: seq<Frame>, n: Octets, k: nat)
    requires AllWellFormed(frames) && |n| == 4 && k <= 3 && forall j :: k <= j < 4 ==> n[j] == 0
    ensures AllCaptured(Encodings(frames))
    ensures Tally(Encodings(frames), ip => Counted(ip, Address(n, 0), Mask(8 * k))) == Covering(frames, n)
    ensures Covering(frames, n) >= FromNetwork(frames, n, k)
  {
    assert IsPrefixLen(8 * k);
    hide *;
    TallyByBytes(frames, n, k);
    NoHostBitsBytes(n, k);
    CounterNeverUnder(Encodings(frames), Address(n, 0), 8 * k);
  }

  /** The bytes of a payload as numbers, for the dump. */
  function Numbers(bytes: Octets): (s: seq<Byte>)
    ensures |s| == |bytes| && forall i :: 0 <= i < |s| ==> s[i] == bytes[i] as nat
  {
    seq(|bytes|, i requires 0 <= i < |bytes| => bytes[i] as nat)
  }

  /** The length field has sixteen bits. */
  lemma PayloadLength(packet: Octets)
    requires Captured(packet) && Decode(packet).Payload?
    ensures |Decode(packet).bytes| <= 65535
  {
    hide IpHl, ThOff, Ntohs;
  }

  /** What is printed for a packet: the dump of its TCP payload, if it has one. */
  function Text(packet: Octets): string
    requires Captured(packet)
  {
    if Decode(packet).Payload? then PayloadLength(packet); Dump(Numbers(Decode(packet).bytes), 0) else ""
  }

  function Texts(packets: seq<Octets>): string
    requires AllCaptured(packets)
  {
    if packets == [] then "" else Texts(packets[..|packets| - 1]) + Text(packets[|packets| - 1])
  }

  lemma ShortHeader(packet: Octets)
    requires Captured(packet) && SizeIp(packet) < 20
    ensures Decode(packet) == BadIpHeader && Text(packet) == "" && !ValidHeader(packet)
  {
  }

  lemma TextIs(packet: Octets)
    requires Captured(packet)
    ensures Decode(packet).Payload? ==>
              |Decode(packet).bytes| <= 65535 && Text(packet) == Dump(Numbers(Decode(packet).bytes), 0)
    ensures !Decode(packet).Payload? ==> Text(packet) == ""
  {
    hide Captured, Decode, Dump, Numbers;
    if Decode(packet).Payload? {
      PayloadLength(packet);
    }
  }

  lemma NoPackets(packets: seq<Octets>, test: bv32 -> bool)
    requires AllCaptured(packets)
    ensures Tally(packets[..0], test) == 0 && Texts(packets[..0]) == ""
  {
  }

  lemma OnePacketMore(packets: seq<Octets>, n: nat, test: bv32 -> bool)
    requires AllCaptured(packets) && n < |packets|
    ensures Captured(packets[n]) && AllCaptured(packets[..n]) && AllCaptured(packets[..n + 1])
    ensures Tally(packets[..n + 1], test) ==
            Tally(packets[..n], test) + if ValidHeader(packets[n]) && test(Source(packets[n])) then 1 else 0
    ensures Texts(packets[..n + 1]) == Texts(packets[..n]) + Text(packets[n])
  {
    hide Captured, ValidHeader, Source, Text;
    assert packets[..n + 1][..n] == packets[..n];
  }

  lemma CountsModulo(n: nat)
    ensures UINT_RANGE > 0 && n % UINT_RANGE < UINT_RANGE
    ensures (n % UINT_RANGE + 1) % UINT_RANGE == (n + 1) % UINT_RANGE && 0 % UINT_RANGE == 0
  {
  }

  lemma CapturedHeader(packet: Octets)
    requires Captured(packet)
    ensures |packet| > SIZE_ETHERNET && SizeIp(packet) == 4 * IpHl(packet[SIZE_ETHERNET])
    ensures ValidHeader(packet) <==> SizeIp(packet) >= 20
  {
  }

  class PacketHandler {
    const netBits: bv32
    const netmask: bv32
    ghost const prefixLen: nat
    var ipBits: bv32
    var count: nat
    var untrustedCounter: nat
    const terminal: Terminal
    var running: bool     // the stop flag
    var looks: nat        // how often the flag has been looked at
    const signals: Signals

    ghost predicate Valid()
    {
      IsPrefixLen(prefixLen) && netmask == StoredMask(netBits, Mask(prefixLen))
    }

    constructor (net: bv32, len: nat, signals: Signals)
      requires IsPrefixLen(len)
      ensures Valid() && netBits == net && prefixLen == len && this.signals == signals
      ensures untrustedCounter == 0 && running && looks == 0 && fresh(terminal) && terminal.out == ""
    {
      netBits := net;
      netmask := StoredMask(net, Mask(len));
      prefixLen := len;
      ipBits, count, untrustedCounter := 0, 0, 0;
      terminal := new Terminal();
      running, looks := true, 0;
      this.signals := signals;
    }

    method KeepRunning() returns (b: bool)
      modifies this`running, this`looks
      ensures looks == old(looks) + 1
      ensures b == running == (old(running) && !signals(old(looks)))
    {
      if signals(looks) {
        running := false;
      }
      looks := looks + 1;
      b := running;
    }

    /** The prefix test, on a packet whose header length is valid. */
    method CountSource(packet: Octets)
      requires Valid() && Captured(packet) && ValidHeader(packet)
      modifies this`ipBits, this`untrustedCounter
      ensures untrustedCounter ==
              if Counted(Source(packet), netBits, Mask(prefixLen)) then (old(untrustedCounter) + 1) % UINT_RANGE
              else old(untrustedCounter)
    {
      hide IpHl, Address, Mask, StoredMask, Passes;
      ipBits := Address(packet, SIZE_ETHERNET + 12);
      if Passes(ipBits, netmask, netBits) {
        untrustedCounter := (untrustedCounter + 1) % UINT_RANGE;
      }
    }

    /** The part after the prefix test: protocol, TCP header and payload. */
    method DecodeSegment(packet: Octets, sizeIp: nat) returns (d: Decoded)
      requires Captured(packet) && ValidHeader(packet) && sizeIp == SizeIp(packet)
      ensures d == Decode(packet)
    {
      hide IpHl, ThOff, Ntohs;
      var protocol := packet[SIZE_ETHERNET + 9];
      if protocol != IPPROTO_TCP {
        return NotTcp(protocol);
      }
      var tcp := SIZE_ETHERNET + sizeIp;
      var sizeTcp := ThOff(packet[tcp + 12]) * 4;
      if sizeTcp < 20 {
        return BadTcpHeader;
      }
      var payload := tcp + sizeTcp;
      var sizePayload := Ntohs(packet, SIZE_ETHERNET + 2) as int - (sizeIp + sizeTcp);
      d := if sizePayload > 0 then Payload(packet[payload..payload + sizePayload]) else NoPayload;
    }

    /** With the stop flag down, the handler ends its thread before it looks at the packet. */
    method GotPacket(packet: Octets) returns (d: Option<Decoded>)
      requires Valid() && Captured(packet) && untrustedCounter < UINT_RANGE
      modifies this, terminal
      ensures looks == old(looks) + 1
      ensures d.Some? == running == (old(running) && !signals(old(looks)))
      ensures running ==> d.value == Decode(packet)
      ensures untrustedCounter ==
              if running && ValidHeader(packet) && Counted(Source(packet), netBits, Mask(prefixLen))
              then (old(untrustedCounter) + 1) % UINT_RANGE else old(untrustedCounter)
      ensures terminal.out == if running then old(terminal.out) + Text(packet) else old(terminal.out)
    {
      hide IpHl, ThOff, Ntohs, Address, Counted, Mask, StoredMask, Captured, ValidHeader, Source, Decode, Text, Dump, Numbers, SizeIp;
      var go := KeepRunning();
      if !go {
        return None;
      }
      ipBits, count := 0, (count + 1) % UINT_RANGE;
      CapturedHeader(packet);
      var sizeIp := IpHl(packet[SIZE_ETHERNET]) * 4;
      if sizeIp < 20 {
        ShortHeader(packet);
        return Some(BadIpHeader);
      }
      CountSource(packet);
      var decoded := DecodeSegment(packet, sizeIp);
      TextIs(packet);
      if decoded.Payload? {
        terminal.PrintPayload(Numbers(decoded.bytes));
      }
      d := Some(decoded);
    }

    /** The capture loop over the packets that arrive; it ends early only if a signal arrives. */
    method Loop(packets: seq<Octets>) returns (ghost n: nat)
      requires Valid() && AllCaptured(packets) && untrustedCounter == 0
      modifies this, terminal
      ensures n <= |packets| && looks == old(looks) + if n < |packets| then n + 1 else n
      ensures running <==> old(running) && Silent(signals, old(looks), looks)
      ensures n < |packets| ==> !running
      ensures n > 0 ==> old(running) && Silent(signals, old(looks), old(looks) + n)
      ensures untrustedCounter == Tally(packets[..n], ip => Counted(ip, netBits, Mask(prefixLen))) % UINT_RANGE
      ensures terminal.out == old(terminal.out) + Texts(packets[..n])
    {
      hide Captured, Mask, StoredMask, Counted, ValidHeader, Source, Decode, Text, Texts, Tally, Silent;
      SilentNext(signals, looks, looks);
      ghost var test := ip => Counted(ip, netBits, Mask(prefixLen));
      NoPackets(packets, test);
      n := 0;
      var i := 0;
      while i < |packets|
        invariant n == i <= |packets| && looks == old(looks) + n
        invariant running <==> old(running) && Silent(signals, old(looks), looks)
        invariant n > 0 ==> old(running) && Silent(signals, old(looks), looks)
        invariant untrustedCounter == Tally(packets[..n], test) % UINT_RANGE
        invariant terminal.out == old(terminal.out) + Texts(packets[..n])
      {
        OnePacketMore(packets, i, test);
        CountsModulo(Tally(packets[..i], test));
        SilentNext(signals, old(looks), looks);
        var d := GotPacket(packets[i]);
        if d.None? {
          return;
        }
        i := i + 1;
        n := n + 1;
      }
    }
  }

  /** Capturing a frame and reading the printed columns gives back the payload that was sent. */
  lemma {:induction false} PrintedPayloadReadsBack(f: Frame)
    requires WellFormed(f) && f.protocol == IPPROTO_TCP && f.payload != []
    ensures Captured(Encode(f)) && Decode(Encode(f)) == Payload(f.payload)
    ensures |f.payload| <= 65535
    ensures var r := ReadDump(Text(Encode(f)));
      && r.Some? && |Joined(r.value)| == |f.payload|
      && forall i :: 0 <= i < |f.payload| ==> Joined(r.value)[i] == f.payload[i] as nat
  {
    FrameRoundTrip(f);
    PayloadFits(f);
    TextIs(Encode(f));
    hide Captured, Decode, Encode, ReadDump, Dump, Joined, Text;
    DumpIsInvertible(Numbers(f.payload));
  }

  lemma PayloadFits(f: Frame)
    requires WellFormed(f)
    ensures |f.payload| <= 65535
  {
  }
}
