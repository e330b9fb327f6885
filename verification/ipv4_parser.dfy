/**
 * The IPv4 header parser of the tap: the fixed fields of the header
 * (section 3.1 of RFC 791), length checks, and the payload after the header.
 * Addresses are kept as their four octets; the capture timestamp is a
 * parameter.
 */
module Ipv4Parser {
  import opened Wrappers

  /** A MAC address in its text form. */
  type MacText = seq<char>

  /** An Ethernet frame as the IPv4 parser sees it: its payload, both MACs and the capture time. */
  datatype EthernetFrame = EthernetFrame(data: seq<byte>, sourceMac: MacText, destinationMac: MacText, timestamp: nat)

  datatype Ipv4Packet = Ipv4Packet(
    sourceMac: Option<MacText>,
    destinationMac: Option<MacText>,
    headerLength: nat,
    totalLength: nat,
    sourceAddress: seq<byte>,
    destinationAddress: seq<byte>,
    ttl: byte,
    protocol: byte,
    payload: seq<byte>,
    size: nat,
    timestamp: nat)

  datatype Ipv4Error = EmptyPayload | HeaderLengthOverflow | PayloadTooShort | InvalidTotalLength

  /** The largest `usize` on the 64-bit targets the tap is built for. */
  const UsizeMax: nat := 0xFFFF_FFFF_FFFF_FFFF

  /** `usize::checked_mul`. */
  function CheckedMul(a: nat, b: nat): (r: Option<nat>)
    ensures r.Some? <==> a * b <= UsizeMax
    ensures r.Some? ==> r.value == a * b
  {
    if a * b > UsizeMax then None else Some(a * b)
  }

  /** `usize::checked_div`. */
  function CheckedDiv(a: nat, b: nat): (r: Option<nat>)
    ensures r.Some? <==> b != 0
    ensures r.Some? ==> r.value == a / b
  {
    if b == 0 then None else Some(a / b)
  }

  /** The header length in bytes: the IHL nibble (32-bit words) times 32, divided by 8, with checked arithmetic. */
  function HeaderLengthOf(first: byte): Option<nat> {
    match CheckedMul(first % 16, 32)
    case None => None
    case Some(bits) => CheckedDiv(bits, 8)
  }

  /** The checked arithmetic never fails: the header length is IHL times 4, a multiple of 4 of at most 60. */
  lemma HeaderLengthBounds(first: byte)
    ensures HeaderLengthOf(first).Some?
    ensures var hl := HeaderLengthOf(first).value;
      hl == (first % 16) * 4 && hl % 4 == 0 && hl <= 60
  {
  }

  /** `parse`: reject short packets and inconsistent lengths, then read the fixed fields. */
  function Parse(packet: seq<byte>, sourceMac: Option<MacText>, destinationMac: Option<MacText>, timestamp: nat)
    : (r: Result<Ipv4Packet, Ipv4Error>)
    requires |packet| > 0
    ensures r.Ok? <==> |packet| >= 20 && (var hl, tl := (packet[0] % 16) * 4, U16(packet[2], packet[3]);
                                          |packet| >= hl && hl <= tl <= |packet|)
    ensures r.Err? ==> r.error != EmptyPayload && r.error != HeaderLengthOverflow
    ensures r.Ok? ==>
              && r.value.headerLength == (packet[0] % 16) * 4
              && r.value.totalLength == U16(packet[2], packet[3])
              && r.value.ttl == packet[8] && r.value.protocol == packet[9]
              && r.value.sourceAddress == packet[12..16] && r.value.destinationAddress == packet[16..20]
              && r.value.payload == packet[r.value.headerLength..]
              && |r.value.payload| == |packet| - r.value.headerLength
              && r.value.size == |packet| % 0x1_0000_0000
              && r.value.sourceMac == sourceMac && r.value.destinationMac == destinationMac
              && r.value.timestamp == timestamp
  {
    HeaderLengthBounds(packet[0]);
    match HeaderLengthOf(packet[0])
    case None => Err(HeaderLengthOverflow)
    case Some(headerLength) =>
      if |packet| < headerLength || |packet| < 20 then Err(PayloadTooShort)
      else
        var totalLength := U16(packet[2], packet[3]);
        if totalLength < headerLength || totalLength > |packet| then Err(InvalidTotalLength)
        else Ok(Ipv4Packet(sourceMac, destinationMac, headerLength, totalLength,
                           packet[12..16], packet[16..20], packet[8], packet[9],
                           packet[headerLength..], |packet| % 0x1_0000_0000, timestamp))
  }

  /** `parse_from_ethernet`: an empty frame payload is rejected before its first byte is read; the MACs are kept. */
  function ParseFromEthernet(frame: EthernetFrame): (r: Result<Ipv4Packet, Ipv4Error>)
    ensures |frame.data| == 0 <==> r == Err(EmptyPayload)
    ensures r.Ok? ==> r.value.sourceMac == Some(frame.sourceMac) && r.value.destinationMac == Some(frame.destinationMac)
    ensures |frame.data| > 0 ==> r == Parse(frame.data, Some(frame.sourceMac), Some(frame.destinationMac), frame.timestamp)
  {
    if |frame.data| == 0 then Err(EmptyPayload)
    else Parse(frame.data, Some(frame.sourceMac), Some(frame.destinationMac), frame.timestamp)
  }

  /** `parse_raw`: a packet without a link layer; both MACs are absent. */
  function ParseRaw(packet: seq<byte>, timestamp: nat): (r: Result<Ipv4Packet, Ipv4Error>)
    requires |packet| > 0
    ensures r.Ok? ==> r.value.sourceMac.None? && r.value.destinationMac.None?
  {
    Parse(packet, None, None, timestamp)
  }

  // ---------------------------------------------------------------------
  // A header writer, the parser's partner
  // ---------------------------------------------------------------------

  /**
   * A version-4 header with the given IHL (in 32-bit words), Total Length,
   * TTL, protocol and addresses; type of service, identification, flags,
   * fragment offset and checksum are zero, and `options` fills the words
   * beyond the fifth.
   */
  function EncodeHeader(ihl: nat, totalLength: nat, ttl: byte, protocol: byte,
                        source: seq<byte>, destination: seq<byte>, options: seq<byte>): (r: seq<byte>)
    requires 5 <= ihl <= 15 && totalLength < 0x1_0000
    requires |source| == 4 && |destination| == 4 && |options| == (ihl - 5) * 4
    ensures |r| == ihl * 4
  {
    [0x40 + ihl, 0] + U16Bytes(totalLength) + [0, 0, 0, 0, ttl, protocol, 0, 0] + source + destination + options
  }

  /**
   * A written header followed by a payload, whose Total Length is the whole
   * packet, parses back to the header's fields and exactly that payload.
   */
  lemma HeaderRoundTrip(ihl: nat, ttl: byte, protocol: byte, source: seq<byte>, destination: seq<byte>,
                        options: seq<byte>, payload: seq<byte>, timestamp: nat)
    requires 5 <= ihl <= 15 && |source| == 4 && |destination| == 4 && |options| == (ihl - 5) * 4
    requires ihl * 4 + |payload| < 0x1_0000
    ensures var packet := EncodeHeader(ihl, ihl * 4 + |payload|, ttl, protocol, source, destination, options) + payload;
      ParseRaw(packet, timestamp)
      == Ok(Ipv4Packet(None, None, ihl * 4, |packet|, source, destination, ttl, protocol,
                       payload, |packet|, timestamp))
  {
    var header := EncodeHeader(ihl, ihl * 4 + |payload|, ttl, protocol, source, destination, options);
    var packet := header + payload;
    HeaderBytes(ihl, ihl * 4 + |payload|, ttl, protocol, source, destination, options);
    assert packet[0] == header[0] && packet[2] == header[2] && packet[3] == header[3];
    assert packet[8] == header[8] && packet[9] == header[9];
    assert packet[12..16] == header[12..16];
    assert packet[16..20] == header[16..20];
    assert packet[ihl * 4..] == payload;
  }

  /** Where a written header keeps its fields. */
  lemma HeaderBytes(ihl: nat, totalLength: nat, ttl: byte, protocol: byte,
                    source: seq<byte>, destination: seq<byte>, options: seq<byte>)
    requires 5 <= ihl <= 15 && totalLength < 0x1_0000
    requires |source| == 4 && |destination| == 4 && |options| == (ihl - 5) * 4
    ensures var h, t := EncodeHeader(ihl, totalLength, ttl, protocol, source, destination, options), U16Bytes(totalLength);
      && h[0] == 0x40 + ihl && h[2] == t[0] && h[3] == t[1] && h[8] == ttl && h[9] == protocol
      && h[12..16] == source && h[16..20] == destination
  {
  }

  /**
   * An IHL below 5 is not rejected: with IHL 0 the header length is 0, and a
   * packet of 20 bytes or more whose Total Length fits is accepted with the
   * whole packet, header included, as its payload.
   */
  lemma ZeroIhlAccepted(packet: seq<byte>, timestamp: nat)
    requires |packet| >= 20 && packet[0] % 16 == 0 && U16(packet[2], packet[3]) <= |packet|
    ensures ParseRaw(packet, timestamp).Ok?
    ensures ParseRaw(packet, timestamp).value.headerLength == 0
    ensures ParseRaw(packet, timestamp).value.payload == packet
  {
  }

  /**
   * Bytes beyond Total Length stay in the payload: the payload always runs
   * to the end of the packet, and Total Length only bounds the check.
   */
  lemma TrailingBytesKept(packet: seq<byte>, extra: seq<byte>, timestamp: nat)
    requires |packet| > 0 && ParseRaw(packet, timestamp).Ok?
    ensures ParseRaw(packet + extra, timestamp).Ok?
    ensures ParseRaw(packet + extra, timestamp).value.payload == ParseRaw(packet, timestamp).value.payload + extra
  {
    var hl := ParseRaw(packet, timestamp).value.headerLength;
    var whole := packet + extra;
    assert whole[0] == packet[0] && whole[2] == packet[2] && whole[3] == packet[3];
    assert whole[hl..] == packet[hl..] + extra;
  }
}
