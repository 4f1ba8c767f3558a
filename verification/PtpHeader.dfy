/** Recognising a PTP frame and reading its messageType and sequenceId. */
module PtpHeader {
  import opened Wrappers

  type Byte = n: int | 0 <= n < 256

  datatype Key = Key(msgType: nat, seqId: nat)

  const HEADER_BUF := 128 // bytes of a received frame that are looked at

  function Be16(b: seq<Byte>, i: nat): nat
    requires i + 1 < |b|
  {
    (b[i] as int) * 256 + b[i + 1]
  }

  /** `lan9250_ptp_parse_header`. */
  function Parse(frame: seq<Byte>): Option<Key> {
    if |frame| < 14 then None
    else if Be16(frame, 12) == 0x88F7 then ParseAt(frame, 14)
    else if Be16(frame, 12) == 0x0800 then
      if |frame| < 15 then None else
        var ihl := frame[14] % 16 * 4;
        if ihl < 20 || |frame| < 14 + ihl + 8 then None
        else if frame[14 + 9] != 0x11 then None
        else if Be16(frame, 14 + ihl + 2) != 319 && Be16(frame, 14 + ihl + 2) != 320 then None
        else ParseAt(frame, 14 + ihl + 8)
    else None
  }

  function ParseAt(frame: seq<Byte>, off: nat): Option<Key> {
    if |frame| < off + 32 then None else Some(Key(frame[off] % 16, Be16(frame, off + 30)))
  }

  function Truncated(frame: seq<Byte>): seq<Byte> {
    if |frame| < HEADER_BUF then frame else frame[..HEADER_BUF]
  }

  /** The first 128 bytes decide: looking at no more of a frame never changes the answer. */
  lemma ParseTruncated(frame: seq<Byte>)
    ensures Parse(Truncated(frame)) == Parse(frame)
  {
    if |frame| > HEADER_BUF && Be16(frame, 12) == 0x0800 {
      assert frame[14] % 16 <= 15;
    }
  }

  // ---------- The frames that carry PTP ----------

  /** A PTP common header, and whatever follows it. */
  predicate IsMessage(body: seq<Byte>) {
    |body| >= 32
  }

  function KeyOf(body: seq<Byte>): Key
    requires IsMessage(body)
  {
    Key(body[0] % 16, Be16(body, 30))
  }

  function Layer2Frame(addresses: seq<Byte>, body: seq<Byte>): seq<Byte> {
    addresses + [0x88, 0xF7] + body
  }

  /** An IPv4 header of 5 to 15 words announcing UDP. */
  predicate IsIpv4Udp(ip: seq<Byte>) {
    |ip| >= 20 && |ip| == ip[0] % 16 * 4 && ip[9] == 0x11
  }

  predicate IsPtpUdp(udp: seq<Byte>) {
    |udp| == 8 && (Be16(udp, 2) == 319 || Be16(udp, 2) == 320)
  }

  function UdpFrame(addresses: seq<Byte>, ip: seq<Byte>, udp: seq<Byte>, body: seq<Byte>): seq<Byte> {
    addresses + [0x08, 0x00] + ip + udp + body
  }

  lemma ParseLayer2(addresses: seq<Byte>, body: seq<Byte>)
    requires |addresses| == 12 && IsMessage(body)
    ensures Parse(Layer2Frame(addresses, body)) == Some(KeyOf(body))
  {
    var f := Layer2Frame(addresses, body);
    assert f[14..] == body;
    assert f[14] == body[0] && f[44] == body[30] && f[45] == body[31];
  }

  lemma ParseUdp(addresses: seq<Byte>, ip: seq<Byte>, udp: seq<Byte>, body: seq<Byte>)
    requires |addresses| == 12 && IsIpv4Udp(ip) && IsPtpUdp(udp) && IsMessage(body)
    ensures Parse(UdpFrame(addresses, ip, udp, body)) == Some(KeyOf(body))
  {
    var f := UdpFrame(addresses, ip, udp, body);
    var n := |ip|;
    assert f[14] == ip[0] && f[23] == ip[9];
    assert f[14 + n + 2] == udp[2] && f[14 + n + 3] == udp[3];
    assert f[22 + n] == body[0] && f[22 + n + 30] == body[30] && f[22 + n + 31] == body[31];
  }

  ghost predicate CarriesPtp(frame: seq<Byte>, key: Key) {
    || (exists a, b :: |a| == 12 && IsMessage(b) && frame == Layer2Frame(a, b) && key == KeyOf(b))
    || (exists a, ip, udp, b :: |a| == 12 && IsIpv4Udp(ip) && IsPtpUdp(udp) && IsMessage(b)
                                && frame == UdpFrame(a, ip, udp, b) && key == KeyOf(b))
  }

  /** Parsing inverts framing: a frame yields a key if and only if it is an Ethernet or an IPv4/UDP frame
      built around a PTP header with that key. */
  lemma ParseIff(frame: seq<Byte>, key: Key)
    ensures Parse(frame) == Some(key) <==> CarriesPtp(frame, key)
  {
    if Parse(frame) == Some(key) {
      Decompose(frame, key);
    }
    if CarriesPtp(frame, key) {
      if a, b :| |a| == 12 && IsMessage(b) && frame == Layer2Frame(a, b) && key == KeyOf(b) {
        ParseLayer2(a, b);
      } else {
        var a, ip, udp, b :| |a| == 12 && IsIpv4Udp(ip) && IsPtpUdp(udp) && IsMessage(b)
                             && frame == UdpFrame(a, ip, udp, b) && key == KeyOf(b);
        ParseUdp(a, ip, udp, b);
      }
    }
  }

  lemma DecomposeUdp(frame: seq<Byte>, key: Key)
    requires Parse(frame) == Some(key) && Be16(frame, 12) == 0x0800
    ensures var n := frame[14] % 16 * 4;
            var ip, udp, b := frame[14..14 + n], frame[14 + n..22 + n], frame[22 + n..];
            && IsIpv4Udp(ip) && IsPtpUdp(udp) && IsMessage(b)
            && frame == UdpFrame(frame[..12], ip, udp, b) && key == KeyOf(b)
  {
    var n := frame[14] % 16 * 4;
    var ip, udp, b := frame[14..14 + n], frame[14 + n..22 + n], frame[22 + n..];
    assert ip[0] == frame[14] && ip[9] == frame[23];
    assert udp[2] == frame[14 + n + 2] && udp[3] == frame[14 + n + 3];
    assert b[0] == frame[22 + n] && b[30] == frame[22 + n + 30] && b[31] == frame[22 + n + 31];
    assert frame[12] == 0x08 && frame[13] == 0;
    assert frame == UdpFrame(frame[..12], ip, udp, b);
  }

  lemma Decompose(frame: seq<Byte>, key: Key)
    requires Parse(frame) == Some(key)
    ensures CarriesPtp(frame, key)
  {
    if Be16(frame, 12) == 0x88F7 {
      var a, b := frame[..12], frame[14..];
      assert frame == Layer2Frame(a, b) && key == KeyOf(b);
    } else {
      DecomposeUdp(frame, key);
    }
  }

  /** A PTP common header with these fields in their places, and what follows it. */
  function Message(upper: nat, msgType: nat, middle: seq<Byte>, seqId: nat, rest: seq<Byte>): seq<Byte>
    requires upper < 16 && msgType < 16 && seqId < 65536
  {
    [16 * upper + msgType] + middle + [seqId / 256, seqId % 256] + rest
  }

  /** Every messageType and sequenceId survives framing and parsing, whatever the other fields are. */
  lemma HeaderRoundTrip(addresses: seq<Byte>, upper: nat, msgType: nat, middle: seq<Byte>, seqId: nat, rest: seq<Byte>)
    requires |addresses| == 12 && upper < 16 && msgType < 16 && |middle| == 29 && seqId < 65536
    ensures Parse(addresses + [0x88, 0xF7] + Message(upper, msgType, middle, seqId, rest)) == Some(Key(msgType, seqId))
  {
    var b := Message(upper, msgType, middle, seqId, rest);
    assert b[0] == 16 * upper + msgType && b[30] == seqId / 256 && b[31] == seqId % 256;
    ParseLayer2(addresses, b);
  }

  /** The same over IPv4 and UDP, to port 319 or 320. */
  lemma UdpRoundTrip(addresses: seq<Byte>, ip: seq<Byte>, source: seq<Byte>, event: bool, tail: seq<Byte>,
                     upper: nat, msgType: nat, middle: seq<Byte>, seqId: nat, rest: seq<Byte>)
    requires |addresses| == 12 && |source| == 2 && |tail| == 4 && 20 <= |ip| <= 60 && |ip| % 4 == 0
    requires ip[0] == 0x40 + |ip| / 4 && ip[9] == 17
    requires upper < 16 && msgType < 16 && |middle| == 29 && seqId < 65536
    ensures Parse(addresses + [0x08, 0x00] + ip + (source + [0x01, if event then 0x3F else 0x40] + tail)
                  + Message(upper, msgType, middle, seqId, rest)) == Some(Key(msgType, seqId))
  {
    var b := Message(upper, msgType, middle, seqId, rest);
    var udp := source + [0x01, if event then 0x3F else 0x40] + tail;
    assert b[0] == 16 * upper + msgType && b[30] == seqId / 256 && b[31] == seqId % 256;
    assert udp[2] == 0x01 && udp[3] == if event then 0x3F else 0x40;
    ParseUdp(addresses, ip, udp, b);
  }
}
