/**
 * The tap's DNS message parser: a UDP payload decoded as a DNS message in the
 * layout of RFC 1035 section 4.1 (header, question entries, answer resource
 * records), with domain names read as label-length bytes and compression
 * pointers (RFC 1035 section 4.1.4).
 *
 * The byte-walking routines are methods with loops, each proved equal to a
 * recursive specification function; the properties of the parser are stated
 * on those functions.
 */
module DnsParser {
  import opened Wrappers

  // ---------------------------------------------------------------------
  // Data model
  // ---------------------------------------------------------------------

  /** The QR flag of the header: a query or a response. */
  datatype DnsType = Query | QueryResponse

  /** The record types the parser treats specially; every other known type is `OtherType`. */
  datatype RecordType = A | NS | CNAME | PTR | MX | TXT | AAAA | OtherType(code: nat)

  /**
   * The numeric-code tables of the record types and classes the tap knows.
   * A code outside them makes `try_from` fail, which rejects the element.
   */
  datatype Registry = Registry(types: map<nat, RecordType>, classes: set<nat>)

  /** The decoded RDATA of an answer: an IPv4 address, eight IPv6 groups, or a name. */
  datatype RecordValue = Address4(octets: seq<byte>) | Address6(groups: seq<nat>) | Text(text: seq<byte>)

  /** One question or answer (`DNSData`); `hasEntropy` says whether an entropy score is attached. */
  datatype DnsData = DnsData(
    name: seq<byte>,
    dataType: RecordType,
    dnsClass: nat,
    value: Option<RecordValue>,
    hasEntropy: bool,
    ttl: Option<nat>)

  /** The addressing of the datagram, copied into the packet unchanged. */
  datatype Addressing = Addressing(
    sourceMac: Option<string>,
    destinationMac: Option<string>,
    sourceAddress: seq<byte>,
    destinationAddress: seq<byte>,
    sourcePort: nat,
    destinationPort: nat)

  datatype Datagram = Datagram(addressing: Addressing, payload: seq<byte>)

  datatype DnsPacket = DnsPacket(
    addressing: Addressing,
    transactionId: Option<nat>,
    dnsType: DnsType,
    questionCount: nat,
    answerCount: nat,
    queries: Option<seq<DnsData>>,
    responses: Option<seq<DnsData>>,
    size: nat)

  datatype DnsError =
    | PointerTooShort       // a pointer byte is the last byte of the data
    | RecursivePointer      // the pointer offset was already followed
    | OffsetBeyondPacket    // the pointer offset lies beyond the packet
    | LabelPointerTooShort  // a leading pointer with fewer than 3 bytes of data
    | ElementTooShort       // a question without its 4 bytes of type and class
    | AnswerTooShort        // an answer without 11 bytes after its name
    | DataLengthOverrun     // RDLENGTH runs past the data
    | UnknownType(code: nat)
    | UnknownClass(code: nat)
    | BadAddressLength      // A data not 4 bytes, AAAA data not 16 bytes
    | MxTooShort            // MX data shorter than 3 bytes

  /** A decoded name and the number of bytes the decoder reports as consumed. */
  datatype Decoded = Decoded(consumed: nat, name: seq<byte>)

  /** A decoded question or answer and the number of bytes it consumed. */
  datatype Element = Element(consumed: nat, data: DnsData)

  /** The number of distinct pointer offsets: a pointer carries 14 bits. */
  const OffsetSpace: nat := 0x4000

  /** The label separator '.' as a byte. */
  const Dot: byte := 46

  // ---------------------------------------------------------------------
  // Pointers and names
  // ---------------------------------------------------------------------

  /** The two high bits of `b` are set (bit 0 and bit 1 in most-significant-first order). */
  function IsPointer(b: byte): (r: bool)
    ensures r <==> b >= 0xC0
  {
    (b / 128) % 2 == 1 && (b / 64) % 2 == 1
  }

  /** The offset a pointer carries: the low six bits of its first byte and all of its second. */
  function PointerOffset(hi: byte, lo: byte): (r: nat)
    ensures r < OffsetSpace
    ensures IsPointer(hi) ==> r == U16(hi, lo) - 0xC000
  {
    U16(hi % 64, lo)
  }

  /** ASCII lower-casing of a byte. */
  function LowerByte(b: byte): byte {
    if 65 <= b <= 90 then b + 32 else b
  }

  /** ASCII lower-casing of every byte of `s`. */
  function Lower(s: seq<byte>): (r: seq<byte>)
    ensures |r| == |s|
  {
    if |s| == 0 then [] else [LowerByte(s[0])] + Lower(s[1..])
  }

  /** The pointer offsets not yet followed; every hop removes one, so the hops are bounded. */
  ghost function Unvisited(visited: seq<nat>): set<nat> {
    set o: nat | o < OffsetSpace && o !in visited
  }

  lemma UnvisitedShrinks(visited: seq<nat>, offset: nat)
    requires offset < OffsetSpace && offset !in visited
    ensures Unvisited(visited + [offset]) < Unvisited(visited)
  {
    assert offset in Unvisited(visited);
    assert offset !in Unvisited(visited + [offset]);
  }

  /**
   * The name decoder's loop from byte `i` on, with the loop's state: `chars`
   * collected so far, the bytes left in the current label, and whether no
   * label has begun yet. A zero byte ends the name, and so does the end of
   * the data. A pointer byte is tested before the label state, so a byte of
   * 0xC0 or more inside a label is followed as a pointer. After a pointer the
   * reported position is that of the pointer byte plus 3.
   */
  function Scan(data: seq<byte>, full: seq<byte>, visited: seq<nat>,
                i: nat, chars: seq<byte>, section: byte, initial: bool): (r: Result<Decoded, DnsError>)
    requires i <= |data|
    ensures r.Ok? && i < |data| ==> i + 1 <= r.value.consumed <= |data| + 1
    ensures r.Ok? && i == |data| ==> r.value.consumed == i
    decreases Unvisited(visited), |data| - i, 2
  {
    if i == |data| then Ok(Decoded(i, Lower(chars)))
    else ScanByte(data, full, visited, i, chars, section, initial)
  }

  /** One turn of the name decoder's loop: the byte at `i`, with the loop's state. */
  function ScanByte(data: seq<byte>, full: seq<byte>, visited: seq<nat>,
                    i: nat, chars: seq<byte>, section: byte, initial: bool): (r: Result<Decoded, DnsError>)
    requires i < |data|
    ensures r.Ok? ==> i + 1 <= r.value.consumed <= |data| + 1
    decreases Unvisited(visited), |data| - i, 1
  {
    if data[i] == 0 then Ok(Decoded(i + 1, Lower(chars)))
    else if IsPointer(data[i]) then Follow(data, full, visited, i, chars)
    else if section == 0 then
      Scan(data, full, visited, i + 1, if initial then chars else chars + [Dot], data[i], false)
    else
      Scan(data, full, visited, i + 1, chars + [data[i]], section - 1, initial)
  }

  /**
   * The pointer at byte `i`: its offset must be new and within the packet;
   * the name found there is appended, after a dot, to the bytes collected so
   * far (which are not lower-cased).
   */
  function Follow(data: seq<byte>, full: seq<byte>, visited: seq<nat>, i: nat, chars: seq<byte>): (r: Result<Decoded, DnsError>)
    requires i < |data|
    ensures r.Ok? ==> r.value.consumed == i + 3 && i + 2 <= |data|
    decreases Unvisited(visited), |data| - i, 0
  {
    if i + 1 >= |data| then Err(PointerTooShort)
    else
      var offset := PointerOffset(data[i], data[i + 1]);
      if offset in visited then Err(RecursivePointer)
      else if |full| < offset then Err(OffsetBeyondPacket)
      else
        UnvisitedShrinks(visited, offset);
        match DecodeName(full[offset..], full, visited + [offset])
        case Err(e) => Err(e)
        case Ok(rest) => Ok(Decoded(i + 3, chars + [Dot] + rest.name))
  }

  /** `parse_string`: decode the name at the start of `data`, resolving pointers into `full`. */
  function DecodeName(data: seq<byte>, full: seq<byte>, visited: seq<nat>): (r: Result<Decoded, DnsError>)
    ensures r.Ok? && |data| > 0 ==> 1 <= r.value.consumed <= |data| + 1
    ensures r.Ok? && |data| == 0 ==> r.value == Decoded(0, [])
    decreases Unvisited(visited), |data| + 1, 3
  {
    Scan(data, full, visited, 0, [], 0, true)
  }

  /**
   * `parse_string` as the source writes it: a loop over the bytes with a
   * mutable cursor, label state and output, recursing once on a pointer.
   */
  method ParseString(data: seq<byte>, full: seq<byte>, visited: seq<nat>) returns (r: Result<Decoded, DnsError>)
    ensures r == DecodeName(data, full, visited)
    decreases Unvisited(visited)
  {
    var cursor: nat := 0;
    var chars: seq<byte> := [];
    var section: byte := 0;
    var initial := true;
    while cursor < |data|
      invariant cursor <= |data|
      invariant Scan(data, full, visited, cursor, chars, section, initial) == DecodeName(data, full, visited)
      decreases |data| - cursor
    {
      assert Scan(data, full, visited, cursor, chars, section, initial)
          == ScanByte(data, full, visited, cursor, chars, section, initial);
      var b := data[cursor];
      cursor := cursor + 1;
      if b == 0 {
        return Ok(Decoded(cursor, Lower(chars)));
      }
      if IsPointer(b) {
        assert DecodeName(data, full, visited) == Follow(data, full, visited, cursor - 1, chars);
        if cursor >= |data| {
          return Err(PointerTooShort);
        }
        var offset := PointerOffset(data[cursor - 1], data[cursor]);
        if offset in visited {
          return Err(RecursivePointer);
        }
        if |full| < offset {
          return Err(OffsetBeyondPacket);
        }
        UnvisitedShrinks(visited, offset);
        var sub := ParseString(full[offset..], full, visited + [offset]);
        if sub.Err? {
          return Err(sub.error);
        }
        cursor := cursor + 2;
        return Ok(Decoded(cursor, chars + [Dot] + sub.value.name));
      }
      if section == 0 {
        if !initial {
          chars := chars + [Dot];
        }
        initial := false;
        section := b;
      } else {
        chars := chars + [b];
        section := section - 1;
      }
    }
    return Ok(Decoded(cursor, Lower(chars)));
  }

  /**
   * `parse_label`: an answer's owner name. A leading pointer is resolved
   * against the whole packet and counts as 2 bytes; otherwise the name is
   * decoded in place.
   */
  function DecodeLabel(data: seq<byte>, full: seq<byte>): (r: Result<Decoded, DnsError>)
    requires |data| > 0
    ensures r.Ok? ==> 1 <= r.value.consumed <= |data| + 1
    ensures r.Ok? && IsPointer(data[0]) ==> r.value.consumed == 2 && |data| >= 3
  {
    if IsPointer(data[0]) then
      if |data| < 3 then Err(LabelPointerTooShort)
      else
        var offset := PointerOffset(data[0], data[1]);
        if offset > |full| then Err(OffsetBeyondPacket)
        else match DecodeName(full[offset..], full, [])
          case Err(e) => Err(e)
          case Ok(d) => Ok(Decoded(2, d.name))
    else DecodeName(data, full, [])
  }

  method ParseLabel(data: seq<byte>, full: seq<byte>) returns (r: Result<Decoded, DnsError>)
    requires |data| > 0
    ensures r == DecodeLabel(data, full)
  {
    if IsPointer(data[0]) {
      if |data| < 3 {
        return Err(LabelPointerTooShort);
      }
      var offset := PointerOffset(data[0], data[1]);
      if offset > |full| {
        return Err(OffsetBeyondPacket);
      }
      r := ParseString(full[offset..], full, []);
      if r.Ok? {
        r := Ok(Decoded(2, r.value.name));
      }
      return;
    }
    r := ParseString(data, full, []);
  }

  // ---------------------------------------------------------------------
  // Questions and answers
  // ---------------------------------------------------------------------

  /**
   * `parse_query_element`: a question is a name followed by 2 bytes of type
   * and 2 of class. The name's pointers resolve against the question's own
   * bytes. A question has no value and no TTL, and always an entropy score.
   */
  function DecodeQuestion(reg: Registry, data: seq<byte>): (r: Result<Element, DnsError>)
    ensures r.Ok? ==> 5 <= r.value.consumed <= |data|
    ensures r.Ok? ==> r.value.data.value.None? && r.value.data.ttl.None? && r.value.data.hasEntropy
    ensures r.Ok? ==> DecodeName(data, data, []).Ok?
                      && r.value.consumed == DecodeName(data, data, []).value.consumed + 4
                      && r.value.data.name == DecodeName(data, data, []).value.name
  {
    match DecodeName(data, data, [])
    case Err(e) => Err(e)
    case Ok(n) =>
      var cursor := n.consumed;
      if |data| < cursor + 4 then Err(ElementTooShort)
      else
        var typeCode := U16(data[cursor], data[cursor + 1]);
        var classCode := U16(data[cursor + 2], data[cursor + 3]);
        if typeCode !in reg.types then Err(UnknownType(typeCode))
        else if classCode !in reg.classes then Err(UnknownClass(classCode))
        else Ok(Element(cursor + 4, DnsData(n.name, reg.types[typeCode], classCode, None, true, None)))
  }

  method ParseQueryElement(reg: Registry, data: seq<byte>) returns (r: Result<Element, DnsError>)
    ensures r == DecodeQuestion(reg, data)
  {
    var name := ParseString(data, data, []);
    if name.Err? {
      return Err(name.error);
    }
    var cursor := name.value.consumed;
    if |data| < cursor + 4 {
      return Err(ElementTooShort);
    }
    var typeCode := U16(data[cursor], data[cursor + 1]);
    if typeCode !in reg.types {
      return Err(UnknownType(typeCode));
    }
    cursor := cursor + 2;
    var classCode := U16(data[cursor], data[cursor + 1]);
    if classCode !in reg.classes {
      return Err(UnknownClass(classCode));
    }
    cursor := cursor + 2;
    return Ok(Element(cursor, DnsData(name.value.name, reg.types[typeCode], classCode, None, true, None)));
  }

  /** `parse_ipv4`: exactly four bytes, kept as the address's octets. */
  function DecodeIpv4(data: seq<byte>): (r: Result<RecordValue, DnsError>)
    ensures r.Ok? <==> |data| == 4
    ensures r.Ok? ==> r.value.Address4? && r.value.octets == data
  {
    if |data| != 4 then Err(BadAddressLength) else Ok(Address4(data))
  }

  /** The eight 16-bit groups of a 16-byte address. */
  function Groups(data: seq<byte>): (r: seq<nat>)
    requires |data| == 16
    ensures |r| == 8 && forall k :: 0 <= k < 8 ==> r[k] == U16(data[2 * k], data[2 * k + 1])
  {
    seq(8, k requires 0 <= k < 8 => U16(data[2 * k], data[2 * k + 1]))
  }

  /** `parse_ipv6`: exactly sixteen bytes, read as eight big-endian groups. */
  function DecodeIpv6(data: seq<byte>): (r: Result<RecordValue, DnsError>)
    ensures r.Ok? <==> |data| == 16
    ensures r.Ok? ==> r.value.Address6? && |r.value.groups| == 8
  {
    if |data| != 16 then Err(BadAddressLength) else Ok(Address6(Groups(data)))
  }

  /** The record types whose value receives an entropy score. */
  predicate HasEntropy(t: RecordType) {
    t.CNAME? || t.NS? || t.PTR? || t.MX? || t.TXT?
  }

  /** The name-typed RDATA decodings share one shape: a decoded, lower-cased name. */
  function NameValue(rdata: seq<byte>, full: seq<byte>): (r: Result<RecordValue, DnsError>)
    ensures r.Ok? <==> DecodeName(rdata, full, []).Ok?
    ensures r.Ok? ==> r.value == Text(Lower(DecodeName(rdata, full, []).value.name))
    ensures r.Ok? ==> r.value.text == Lower(r.value.text)
  {
    match DecodeName(rdata, full, [])
    case Err(e) => Err(e)
    case Ok(d) => LowerIdempotent(d.name); Ok(Text(Lower(d.name)))
  }

  lemma {:induction false} LowerIdempotent(s: seq<byte>)
    ensures Lower(Lower(s)) == Lower(s)
  {
    if |s| > 0 {
      LowerIdempotent(s[1..]);
      assert Lower(s)[1..] == Lower(s[1..]);
    }
  }

  /** The value of an answer of type `t` whose RDATA is `rdata`. */
  function DecodeValue(t: RecordType, rdata: seq<byte>, full: seq<byte>): (r: Result<Option<RecordValue>, DnsError>)
    ensures t.OtherType? ==> r == Ok(None)
  {
    match t
    case A => (match DecodeIpv4(rdata) case Err(e) => Err(e) case Ok(v) => Ok(Some(v)))
    case AAAA => (match DecodeIpv6(rdata) case Err(e) => Err(e) case Ok(v) => Ok(Some(v)))
    case MX =>
      if |rdata| < 3 then Err(MxTooShort)
      else (match NameValue(rdata[2..], full) case Err(e) => Err(e) case Ok(v) => Ok(Some(v)))
    case OtherType(_) => Ok(None)
    case _ => (match NameValue(rdata, full) case Err(e) => Err(e) case Ok(v) => Ok(Some(v)))
  }

  /**
   * The value of each record type: four bytes for A, sixteen bytes read as
   * eight groups for AAAA, a 2-byte preference and a name for MX, a name for
   * the other name types, and no value for a type the tap does not read.
   */
  lemma ValueCases(t: RecordType, rdata: seq<byte>, full: seq<byte>)
    ensures var r := DecodeValue(t, rdata, full);
      && (t.A? ==> (r.Ok? <==> |rdata| == 4))
      && (r.Ok? && t.A? ==> r.value == Some(Address4(rdata)))
      && (t.AAAA? ==> (r.Ok? <==> |rdata| == 16))
      && (r.Ok? && t.AAAA? ==> r.value == Some(Address6(Groups(rdata))))
      && (t.MX? ==> (r.Ok? <==> |rdata| >= 3 && DecodeName(rdata[2..], full, []).Ok?))
      && (r.Ok? && t.MX? ==> r.value == Some(Text(Lower(DecodeName(rdata[2..], full, []).value.name))))
      && (HasEntropy(t) && !t.MX? ==> (r.Ok? <==> DecodeName(rdata, full, []).Ok?))
      && (r.Ok? && HasEntropy(t) && !t.MX? ==> r.value == Some(Text(Lower(DecodeName(rdata, full, []).value.name))))
  {
  }

  /**
   * `parse_answer_element`: a name, then type (2), class (2), TTL (4),
   * RDLENGTH (2) and RDLENGTH bytes of RDATA. At least 11 bytes must follow
   * the name.
   */
  function DecodeAnswer(reg: Registry, data: seq<byte>, full: seq<byte>): (r: Result<Element, DnsError>)
    requires |data| > 0
    ensures r.Ok? ==> 11 <= r.value.consumed <= |data|
    ensures r.Ok? ==> r.value.data.ttl.Some? && r.value.data.ttl.value < 0x1_0000_0000
    ensures r.Ok? ==> (r.value.data.hasEntropy <==> HasEntropy(r.value.data.dataType))
  {
    match DecodeLabel(data, full)
    case Err(e) => Err(e)
    case Ok(n) =>
      var cursor := n.consumed;
      if |data| < cursor + 11 then Err(AnswerTooShort)
      else
        var typeCode := U16(data[cursor], data[cursor + 1]);
        var classCode := U16(data[cursor + 2], data[cursor + 3]);
        var ttl := U32(data[cursor + 4], data[cursor + 5], data[cursor + 6], data[cursor + 7]);
        var length := U16(data[cursor + 8], data[cursor + 9]);
        if typeCode !in reg.types then Err(UnknownType(typeCode))
        else if classCode !in reg.classes then Err(UnknownClass(classCode))
        else if |data| < cursor + 10 + length then Err(DataLengthOverrun)
        else
          var t := reg.types[typeCode];
          match DecodeValue(t, data[cursor + 10 .. cursor + 10 + length], full)
          case Err(e) => Err(e)
          case Ok(v) =>
            Ok(Element(cursor + 10 + length,
                       DnsData(n.name, t, classCode, v, v.Some? && HasEntropy(t), Some(ttl))))
  }

  /**
   * An accepted answer is its owner name, then known type and class codes, a
   * TTL and RDLENGTH bytes of RDATA, which decode to the answer's value.
   */
  lemma AnswerFields(reg: Registry, data: seq<byte>, full: seq<byte>)
    requires |data| > 0
    ensures var r := DecodeAnswer(reg, data, full);
      r.Ok? ==> DecodeLabel(data, full).Ok?
                && (var c := DecodeLabel(data, full).value.consumed;
                    && c + 11 <= |data| && r.value.consumed == c + 10 + U16(data[c + 8], data[c + 9])
                    && r.value.data.name == DecodeLabel(data, full).value.name
                    && U16(data[c], data[c + 1]) in reg.types
                    && r.value.data.dataType == reg.types[U16(data[c], data[c + 1])]
                    && r.value.data.dnsClass == U16(data[c + 2], data[c + 3])
                    && r.value.data.dnsClass in reg.classes
                    && r.value.data.ttl == Some(U32(data[c + 4], data[c + 5], data[c + 6], data[c + 7]))
                    && DecodeValue(r.value.data.dataType, data[c + 10 .. r.value.consumed], full).Ok?
                    && r.value.data.value == DecodeValue(r.value.data.dataType, data[c + 10 .. r.value.consumed], full).value)
  {
  }

  method ParseAnswerElement(reg: Registry, data: seq<byte>, full: seq<byte>) returns (r: Result<Element, DnsError>)
    requires |data| > 0
    ensures r == DecodeAnswer(reg, data, full)
  {
    var name := ParseLabel(data, full);
    if name.Err? {
      return Err(name.error);
    }
    var cursor := name.value.consumed;
    if |data| < cursor + 11 {
      return Err(AnswerTooShort);
    }
    var typeCode := U16(data[cursor], data[cursor + 1]);
    if typeCode !in reg.types {
      return Err(UnknownType(typeCode));
    }
    var t := reg.types[typeCode];
    cursor := cursor + 2;
    var classCode := U16(data[cursor], data[cursor + 1]);
    if classCode !in reg.classes {
      return Err(UnknownClass(classCode));
    }
    cursor := cursor + 2;
    var ttl := U32(data[cursor], data[cursor + 1], data[cursor + 2], data[cursor + 3]);
    cursor := cursor + 4;
    var length := U16(data[cursor], data[cursor + 1]);
    cursor := cursor + 2;
    if |data| < cursor + length {
      return Err(DataLengthOverrun);
    }
    var value: Option<RecordValue>;
    match t {
      case A =>
        var v := DecodeIpv4(data[cursor .. cursor + length]);
        if v.Err? { return Err(v.error); }
        value := Some(v.value);
      case AAAA =>
        var v := DecodeIpv6(data[cursor .. cursor + length]);
        if v.Err? { return Err(v.error); }
        value := Some(v.value);
      case MX =>
        if length < 3 { return Err(MxTooShort); }
        var d := ParseString(data[cursor + 2 .. cursor + length], full, []);
        if d.Err? { return Err(d.error); }
        value := Some(Text(Lower(d.value.name)));
      case OtherType(_) =>
        value := None;
      case _ =>
        var d := ParseString(data[cursor .. cursor + length], full, []);
        if d.Err? { return Err(d.error); }
        value := Some(Text(Lower(d.value.name)));
    }
    cursor := cursor + length;
    return Ok(Element(cursor, DnsData(name.value.name, t, classCode, value, value.Some? && HasEntropy(t), Some(ttl))));
  }

  // ---------------------------------------------------------------------
  // The message
  // ---------------------------------------------------------------------

  /** The outcome of a counted element loop: where the cursor stopped and the elements read, or a failure. */
  datatype Run = Failed | Ran(cursor: nat, items: seq<DnsData>)

  /**
   * The question loop: `n` more questions from `cursor`, each needing 5
   * bytes left before it is parsed, appended to the `found` ones. Yields the
   * cursor after the last question and the list; any failure rejects.
   */
  function Questions(reg: Registry, p: seq<byte>, cursor: nat, n: nat, found: seq<DnsData>): (r: Run)
    requires cursor <= |p|
    ensures r.Ran? ==> |r.items| == |found| + n
    ensures r.Ran? ==> cursor + 5 * n <= r.cursor <= |p|
    decreases n, 2
  {
    if n == 0 then Ran(cursor, found) else QuestionRoom(reg, p, cursor, n, found)
  }

  /** Before each question the loop demands 5 bytes from `cursor` on. */
  function QuestionRoom(reg: Registry, p: seq<byte>, cursor: nat, n: nat, found: seq<DnsData>): (r: Run)
    requires cursor <= |p| && n > 0
    ensures r.Ran? ==> |r.items| == |found| + n
    ensures r.Ran? ==> cursor + 5 * n <= r.cursor <= |p|
    decreases n, 1
  {
    if |p| < cursor + 5 then Failed else QuestionTurn(reg, p, cursor, n, found)
  }

  /** One turn of the question loop: the question at `cursor`, then the remaining `n - 1`. */
  function QuestionTurn(reg: Registry, p: seq<byte>, cursor: nat, n: nat, found: seq<DnsData>): (r: Run)
    requires cursor + 5 <= |p| && n > 0
    ensures r.Ran? ==> |r.items| == |found| + n
    ensures r.Ran? ==> cursor + 5 * n <= r.cursor <= |p|
    decreases n, 0
  {
    match DecodeQuestion(reg, p[cursor..])
    case Err(_) => Failed
    case Ok(q) => Questions(reg, p, cursor + q.consumed, n - 1, found + [q.data])
  }

  /** The answer loop: as `Questions`, with pointers resolved against the whole payload. */
  function Answers(reg: Registry, p: seq<byte>, cursor: nat, n: nat, found: seq<DnsData>): (r: Run)
    requires cursor <= |p|
    ensures r.Ran? ==> |r.items| == |found| + n
    ensures r.Ran? ==> cursor + 11 * n <= r.cursor <= |p|
    decreases n, 2
  {
    if n == 0 then Ran(cursor, found) else AnswerRoom(reg, p, cursor, n, found)
  }

  /** Before each answer the loop demands 5 bytes from `cursor` on. */
  function AnswerRoom(reg: Registry, p: seq<byte>, cursor: nat, n: nat, found: seq<DnsData>): (r: Run)
    requires cursor <= |p| && n > 0
    ensures r.Ran? ==> |r.items| == |found| + n
    ensures r.Ran? ==> cursor + 11 * n <= r.cursor <= |p|
    decreases n, 1
  {
    if |p| < cursor + 5 then Failed else AnswerTurn(reg, p, cursor, n, found)
  }

  /** One turn of the answer loop: the answer at `cursor`, then the remaining `n - 1`. */
  function AnswerTurn(reg: Registry, p: seq<byte>, cursor: nat, n: nat, found: seq<DnsData>): (r: Run)
    requires cursor + 5 <= |p| && n > 0
    ensures r.Ran? ==> |r.items| == |found| + n
    ensures r.Ran? ==> cursor + 11 * n <= r.cursor <= |p|
    decreases n, 0
  {
    match DecodeAnswer(reg, p[cursor..], p)
    case Err(_) => Failed
    case Ok(a) => Answers(reg, p, cursor + a.consumed, n - 1, found + [a.data])
  }

  /** The QR flag is the top bit of the third byte. */
  function TypeOf(flags: byte): (t: DnsType)
    ensures t == QueryResponse <==> flags >= 128
  {
    if flags / 128 == 1 then QueryResponse else Query
  }

  /** `parse`: the whole message, or nothing. */
  function DecodePacket(reg: Registry, udp: Datagram): (r: Option<DnsPacket>)
    ensures |udp.payload| < 13 ==> r.None?
    ensures |udp.payload| >= 13 && (U16(udp.payload[4], udp.payload[5]) > 512 || U16(udp.payload[6], udp.payload[7]) > 512)
            ==> r.None?
    ensures r.Some? ==> |udp.payload| >= 13
    ensures r.Some? ==>
              && r.value.questionCount == U16(udp.payload[4], udp.payload[5])
              && r.value.answerCount == U16(udp.payload[6], udp.payload[7])
              && r.value.questionCount <= 512 && r.value.answerCount <= 512
              && 0 < r.value.questionCount + r.value.answerCount
    ensures r.Some? ==> (r.value.dnsType == QueryResponse <==> udp.payload[2] >= 128)
    ensures r.Some? ==> ((r.value.queries.None? <==> r.value.questionCount == 0)
                         && (r.value.queries.Some? ==> |r.value.queries.value| == r.value.questionCount))
    ensures r.Some? ==> ((r.value.responses.None? <==> r.value.answerCount == 0)
                         && (r.value.responses.Some? ==> |r.value.responses.value| == r.value.answerCount))
    ensures r.Some? ==> r.value.transactionId == (var id := U16(udp.payload[0], udp.payload[1]);
                                                 if id == 0 then None else Some(id))
    ensures r.Some? ==> r.value.size == |udp.payload| % 0x1_0000_0000 && r.value.addressing == udp.addressing
  {
    var p := udp.payload;
    if |p| < 13 then None
    else
      var id := U16(p[0], p[1]);
      var questionCount := U16(p[4], p[5]);
      var answerCount := U16(p[6], p[7]);
      if questionCount > 512 || answerCount > 512 then None
      else match Questions(reg, p, 12, questionCount, [])
        case Failed => None
        case Ran(cursor, queries) =>
          match Answers(reg, p, cursor, answerCount, [])
          case Failed => None
          case Ran(_, responses) =>
            if questionCount == 0 && answerCount == 0 then None
            else Some(DnsPacket(
              udp.addressing,
              if id == 0 then None else Some(id),
              TypeOf(p[2]),
              questionCount,
              answerCount,
              if questionCount > 0 then Some(queries) else None,
              if answerCount > 0 then Some(responses) else None,
              |p| % 0x1_0000_0000))
  }

  /** One turn of the question loop: parse the element at `cursor`. */
  method NextQuestion(reg: Registry, p: seq<byte>, cursor: nat, ghost n: nat, ghost list: seq<DnsData>)
    returns (e: Result<Element, DnsError>)
    requires cursor + 5 <= |p| && n > 0
    ensures e.Err? ==> Questions(reg, p, cursor, n, list).Failed?
    ensures e.Ok? ==> cursor + e.value.consumed <= |p|
    ensures e.Ok? ==> Questions(reg, p, cursor, n, list) == Questions(reg, p, cursor + e.value.consumed, n - 1, list + [e.value.data])
  {
    e := ParseQueryElement(reg, p[cursor..]);
    assert Questions(reg, p, cursor, n, list) == QuestionTurn(reg, p, cursor, n, list);
  }

  /** The question loop of `parse`: count questions, advancing the cursor; any failure rejects. */
  method ParseQuestions(reg: Registry, p: seq<byte>, start: nat, count: nat) returns (r: Run)
    requires start <= |p|
    ensures r == Questions(reg, p, start, count, [])
  {
    var cursor: nat := start;
    var list: seq<DnsData> := [];
    ghost var whole := Questions(reg, p, start, count, []);
    ghost var left := count;
    var i := 0;
    while i < count
      invariant i <= count && left == count - i && cursor <= |p|
      invariant whole == Questions(reg, p, cursor, left, list)
    {
      if |p| < cursor + 5 {
        return Failed;
      }
      var e := NextQuestion(reg, p, cursor, left, list);
      if e.Err? {
        return Failed;
      }
      cursor := cursor + e.value.consumed;
      list := list + [e.value.data];
      left := left - 1;
      i := i + 1;
    }
    return Ran(cursor, list);
  }

  /** One turn of the answer loop: parse the element at `cursor`. */
  method NextAnswer(reg: Registry, p: seq<byte>, cursor: nat, ghost n: nat, ghost list: seq<DnsData>)
    returns (e: Result<Element, DnsError>)
    requires cursor + 5 <= |p| && n > 0
    ensures e.Err? ==> Answers(reg, p, cursor, n, list).Failed?
    ensures e.Ok? ==> cursor + e.value.consumed <= |p|
    ensures e.Ok? ==> Answers(reg, p, cursor, n, list) == Answers(reg, p, cursor + e.value.consumed, n - 1, list + [e.value.data])
  {
    e := ParseAnswerElement(reg, p[cursor..], p);
    assert Answers(reg, p, cursor, n, list) == AnswerTurn(reg, p, cursor, n, list);
  }

  /** The answer loop of `parse`, continuing from the cursor the questions left. */
  method ParseAnswers(reg: Registry, p: seq<byte>, start: nat, count: nat) returns (r: Run)
    requires start <= |p|
    ensures r == Answers(reg, p, start, count, [])
  {
    var cursor: nat := start;
    var list: seq<DnsData> := [];
    ghost var whole := Answers(reg, p, start, count, []);
    ghost var left := count;
    var i := 0;
    while i < count
      invariant i <= count && left == count - i && cursor <= |p|
      invariant whole == Answers(reg, p, cursor, left, list)
    {
      if |p| < cursor + 5 {
        return Failed;
      }
      var e := NextAnswer(reg, p, cursor, left, list);
      if e.Err? {
        return Failed;
      }
      cursor := cursor + e.value.consumed;
      list := list + [e.value.data];
      left := left - 1;
      i := i + 1;
    }
    return Ran(cursor, list);
  }

  /** `parse`: header checks, then the question and answer loops over one cursor. */
  method Parse(reg: Registry, udp: Datagram) returns (r: Option<DnsPacket>)
    ensures r == DecodePacket(reg, udp)
  {
    var p := udp.payload;
    if |p| < 13 {
      return None;
    }
    var id := U16(p[0], p[1]);
    var dnsType := TypeOf(p[2]);
    var questionCount := U16(p[4], p[5]);
    var answerCount := U16(p[6], p[7]);
    if questionCount > 512 || answerCount > 512 {
      return None;
    }
    var questions := ParseQuestions(reg, p, 12, questionCount);
    if questions.Failed? {
      return None;
    }
    var cursor := questions.cursor;
    var answers := ParseAnswers(reg, p, cursor, answerCount);
    if answers.Failed? {
      return None;
    }
    if questionCount == 0 && answerCount == 0 {
      return None;
    }
    var queries := if questionCount > 0 then Some(questions.items) else None;
    var responses := if answerCount > 0 then Some(answers.items) else None;
    return Some(DnsPacket(udp.addressing, if id == 0 then None else Some(id), dnsType,
                          questionCount, answerCount, queries, responses, |p| % 0x1_0000_0000));
  }
}

