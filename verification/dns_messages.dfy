/**
 * Resource records and whole messages as a DNS server writes them, and what
 * the tap's parser makes of them: each answer record, the answer loop and
 * the message read back, and the ways a message is rejected.
 */
module DnsMessages {
  import opened Wrappers
  import opened DnsParser
  import opened DnsEncoding

  // ---------------------------------------------------------------------
  // Answer records
  // ---------------------------------------------------------------------

  /** The RDATA of a record, in the shape its type calls for. */
  datatype RData =
    | V4(octets: seq<byte>)                                   // A
    | V6(address: seq<byte>)                                  // AAAA
    | Target(labels: seq<seq<byte>>)                          // CNAME, NS, PTR, TXT
    | Exchange(preference: nat, exchange: seq<seq<byte>>)     // MX
    | Raw(bytes: seq<byte>)                                   // a type whose value the tap does not read

  predicate ValidRData(d: RData) {
    match d
    case V4(o) => |o| == 4
    case V6(b) => |b| == 16
    case Target(l) => ValidLabels(l)
    case Exchange(p, l) => p < 0x1_0000 && ValidLabels(l)
    case Raw(_) => true
  }

  /** The RDATA bytes: an address, a name, or a preference and a name. */
  function RDataBytes(d: RData): (r: seq<byte>)
    requires ValidRData(d)
    ensures d.Exchange? ==> |r| >= 3
  {
    match d
    case V4(o) => o
    case V6(b) => b
    case Target(l) => EncodeName(l)
    case Exchange(p, l) => U16Bytes(p) + EncodeName(l)
    case Raw(b) => b
  }

  /** The shape of RDATA that a record type calls for. */
  predicate Fits(t: RecordType, d: RData) {
    match t
    case A => d.V4?
    case AAAA => d.V6?
    case MX => d.Exchange?
    case OtherType(_) => d.Raw?
    case _ => d.Target?
  }

  /** The value the tap should report for RDATA: the address, the lower-cased dotted name, or none. */
  function ValueOf(d: RData): Option<RecordValue>
    requires ValidRData(d)
  {
    match d
    case V4(o) => Some(Address4(o))
    case V6(b) => Some(Address6(Groups(b)))
    case Target(l) => Some(Text(Lower(JoinLabels(l))))
    case Exchange(_, l) => Some(Text(Lower(JoinLabels(l))))
    case Raw(_) => None
  }

  /**
   * RDATA of the right shape decodes to its value: four octets, the eight
   * big-endian groups of sixteen bytes, the lower-cased name, or the MX name
   * after the 2-byte preference; an unread type gives no value.
   */
  lemma {:induction false} RDataRoundTrip(t: RecordType, d: RData, full: seq<byte>)
    requires ValidRData(d) && Fits(t, d)
    ensures DecodeValue(t, RDataBytes(d), full) == Ok(ValueOf(d))
  {
    match d
    case V4(o) =>
    case V6(_) =>
    case Target(l) =>
      assert EncodeName(l) + [] == EncodeName(l);
      NameRoundTrip(l, [], full, []);
      LowerIdempotent(JoinLabels(l));
    case Exchange(p, l) =>
      assert RDataBytes(d)[2..] == EncodeName(l) + [];
      NameRoundTrip(l, [], full, []);
      LowerIdempotent(JoinLabels(l));
    case Raw(_) =>
  }

  /** An answer record: owner name, type and class codes, TTL and RDATA. */
  datatype Record = Record(owner: seq<seq<byte>>, typeCode: nat, classCode: nat, ttl: nat, rdata: RData)

  predicate ValidRecord(a: Record) {
    && ValidLabels(a.owner) && a.typeCode < 0x1_0000 && a.classCode < 0x1_0000 && a.ttl < 0x1_0000_0000
    && ValidRData(a.rdata) && |RDataBytes(a.rdata)| < 0x1_0000
  }

  /** A record as written: the owner name, then the fixed fields and the RDATA. */
  function EncodeRecord(a: Record): (r: seq<byte>)
    requires ValidRecord(a)
    ensures |r| == |EncodeName(a.owner)| + 10 + |RDataBytes(a.rdata)|
  {
    EncodeName(a.owner) + EncodeRecordTail(a.typeCode, a.classCode, a.ttl, RDataBytes(a.rdata))
  }

  /** Both codes are known, and the RDATA is well formed and has the shape the type calls for. */
  predicate KnownRecord(reg: Registry, a: Record) {
    && a.typeCode in reg.types && a.classCode in reg.classes
    && ValidRData(a.rdata) && Fits(reg.types[a.typeCode], a.rdata)
  }

  /** What the parser should make of a known record. */
  function RecordData(reg: Registry, a: Record): DnsData
    requires KnownRecord(reg, a)
  {
    var t := reg.types[a.typeCode];
    DnsData(Lower(JoinLabels(a.owner)), t, a.classCode, ValueOf(a.rdata), HasEntropy(t), Some(a.ttl))
  }

  /**
   * A written record decodes to its lower-cased owner name, type, class, TTL
   * and value, with an entropy score exactly for the name-valued types, and
   * consumes the name, 10 bytes and the RDATA. It fails on the first unknown
   * code, and, since the parser demands 11 bytes after the name, when its
   * RDATA is empty and nothing follows it.
   */
  lemma {:induction false} RecordRoundTrip(reg: Registry, a: Record, rest: seq<byte>, full: seq<byte>)
    requires ValidRecord(a)
    requires a.typeCode in reg.types ==> Fits(reg.types[a.typeCode], a.rdata)
    ensures DecodeAnswer(reg, EncodeRecord(a) + rest, full)
         == if |RDataBytes(a.rdata)| + |rest| == 0 then Err(AnswerTooShort)
            else if a.typeCode !in reg.types then Err(UnknownType(a.typeCode))
            else if a.classCode !in reg.classes then Err(UnknownClass(a.classCode))
            else Ok(Element(|EncodeRecord(a)|, RecordData(reg, a)))
  {
    var data, c, rdata := EncodeRecord(a) + rest, |EncodeName(a.owner)|, RDataBytes(a.rdata);
    RecordParts(a, rest, full);
    AnswerOfParts(reg, data, full, c, Lower(JoinLabels(a.owner)), rdata);
    if a.typeCode in reg.types {
      RDataRoundTrip(reg.types[a.typeCode], a.rdata, full);
    }
  }

  /** The owner name and the fields of a written record, as the answer decoder reads them. */
  lemma {:induction false} RecordParts(a: Record, rest: seq<byte>, full: seq<byte>)
    requires ValidRecord(a)
    ensures var data, c, rdata := EncodeRecord(a) + rest, |EncodeName(a.owner)|, RDataBytes(a.rdata);
      && |data| >= c + 10 + |rdata| && c > 0
      && DecodeLabel(data, full) == Ok(Decoded(c, Lower(JoinLabels(a.owner))))
      && U16(data[c], data[c + 1]) == a.typeCode
      && U16(data[c + 2], data[c + 3]) == a.classCode
      && U32(data[c + 4], data[c + 5], data[c + 6], data[c + 7]) == a.ttl
      && U16(data[c + 8], data[c + 9]) == |rdata|
      && data[c + 10 .. c + 10 + |rdata|] == rdata
  {
    var name, rdata := EncodeName(a.owner), RDataBytes(a.rdata);
    var tail := EncodeRecordTail(a.typeCode, a.classCode, a.ttl, rdata);
    AppendAssociates(name, tail, rest);
    LabelRoundTrip(a.owner, tail + rest, full);
    RecordTailFields(name, a.typeCode, a.classCode, a.ttl, rdata, rest);
  }

  /** The answer decoder over a name that ends at `c`, a length field that fits and its RDATA. */
  lemma {:induction false} AnswerOfParts(reg: Registry, data: seq<byte>, full: seq<byte>, c: nat, name: seq<byte>, rdata: seq<byte>)
    requires |data| > 0 && DecodeLabel(data, full) == Ok(Decoded(c, name))
    requires c + 10 + |rdata| <= |data| && U16(data[c + 8], data[c + 9]) == |rdata|
    requires data[c + 10 .. c + 10 + |rdata|] == rdata
    ensures DecodeAnswer(reg, data, full)
         == if |data| < c + 11 then Err(AnswerTooShort)
            else if U16(data[c], data[c + 1]) !in reg.types then Err(UnknownType(U16(data[c], data[c + 1])))
            else if U16(data[c + 2], data[c + 3]) !in reg.classes then Err(UnknownClass(U16(data[c + 2], data[c + 3])))
            else
              var t := reg.types[U16(data[c], data[c + 1])];
              match DecodeValue(t, rdata, full)
              case Err(e) => Err(e)
              case Ok(v) => Ok(Element(c + 10 + |rdata|, DnsData(name, t, U16(data[c + 2], data[c + 3]), v, v.Some? && HasEntropy(t),
                                                                 Some(U32(data[c + 4], data[c + 5], data[c + 6], data[c + 7])))))
  {
  }

  /** An AAAA record written from eight 16-bit groups decodes to exactly those groups. */
  lemma {:induction false} Ipv6RecordRoundTrip(reg: Registry, owner: seq<seq<byte>>, typeCode: nat, classCode: nat, ttl: nat,
                            groups: seq<nat>, rest: seq<byte>, full: seq<byte>)
    requires ValidLabels(owner) && typeCode < 0x1_0000 && classCode < 0x1_0000 && ttl < 0x1_0000_0000
    requires |groups| == 8 && forall k :: 0 <= k < 8 ==> groups[k] < 0x1_0000
    requires typeCode in reg.types && reg.types[typeCode] == AAAA && classCode in reg.classes
    ensures var a := Record(owner, typeCode, classCode, ttl, V6(GroupBytes(groups)));
      DecodeAnswer(reg, EncodeRecord(a) + rest, full)
      == Ok(Element(|EncodeName(owner)| + 26,
                    DnsData(Lower(JoinLabels(owner)), AAAA, classCode, Some(Address6(groups)), false, Some(ttl))))
  {
    var a := Record(owner, typeCode, classCode, ttl, V6(GroupBytes(groups)));
    RecordRoundTrip(reg, a, rest, full);
    assert |EncodeRecord(a)| == |EncodeName(owner)| + 26;
    assert RecordData(reg, a) == DnsData(Lower(JoinLabels(owner)), AAAA, classCode, Some(Address6(groups)), false, Some(ttl)) by {
      Ipv6RoundTrip(groups);
    }
  }

  // ---------------------------------------------------------------------
  // The answer loop
  // ---------------------------------------------------------------------

  /**
   * Every record is well formed and has RDATA: the answer loop reads a
   * record with empty RDATA only when more bytes follow it.
   */
  predicate AllValidRecords(rs: seq<Record>) {
    |rs| == 0 || (ValidRecord(rs[0]) && |RDataBytes(rs[0].rdata)| > 0 && AllValidRecords(rs[1..]))
  }

  /** Every record is known. */
  predicate AllKnownRecords(reg: Registry, rs: seq<Record>) {
    |rs| == 0 || (KnownRecord(reg, rs[0]) && AllKnownRecords(reg, rs[1..]))
  }

  /** Records written one after another. */
  function EncodeRecords(rs: seq<Record>): (r: seq<byte>)
    requires AllValidRecords(rs)
    ensures |r| >= 11 * |rs|
  {
    if |rs| == 0 then [] else EncodeRecord(rs[0]) + EncodeRecords(rs[1..])
  }

  function RecordsData(reg: Registry, rs: seq<Record>): (r: seq<DnsData>)
    requires AllKnownRecords(reg, rs)
    ensures |r| == |rs|
  {
    if |rs| == 0 then [] else [RecordData(reg, rs[0])] + RecordsData(reg, rs[1..])
  }

  /** Byte strings written one after another. */
  function Concat(chunks: seq<seq<byte>>): (r: seq<byte>)
    ensures |chunks| > 0 ==> r == chunks[0] + Concat(chunks[1..])
  {
    if |chunks| == 0 then [] else chunks[0] + Concat(chunks[1..])
  }

  /** The bytes of each record, in order. */
  function RecordChunks(rs: seq<Record>): (r: seq<seq<byte>>)
    requires AllValidRecords(rs)
    ensures |r| == |rs|
  {
    if |rs| == 0 then [] else [EncodeRecord(rs[0])] + RecordChunks(rs[1..])
  }

  /** The answer loop reads `chunk` as one answer, `d`, whatever bytes follow it. */
  ghost predicate ReadAsAnswer(reg: Registry, full: seq<byte>, chunk: seq<byte>, d: DnsData) {
    && |chunk| > 0
    && forall rest: seq<byte> {:trigger DecodeAnswer(reg, chunk + rest, full)} ::
         DecodeAnswer(reg, chunk + rest, full) == Ok(Element(|chunk|, d))
  }

  /** Each chunk is read as one answer, the matching element of `datas`. */
  ghost predicate ReadAsAnswers(reg: Registry, full: seq<byte>, chunks: seq<seq<byte>>, datas: seq<DnsData>)
    decreases |chunks|
  {
    && |chunks| == |datas|
    && (|chunks| > 0 ==> ReadAsAnswer(reg, full, chunks[0], datas[0]) && ReadAsAnswers(reg, full, chunks[1..], datas[1..]))
  }

  /**
   * Written records are the chunks of their encoding, and each known one is
   * read back as its own data, whatever follows it.
   */
  lemma {:induction false} RecordChunksRead(reg: Registry, full: seq<byte>, rs: seq<Record>)
    requires AllValidRecords(rs) && AllKnownRecords(reg, rs)
    ensures Concat(RecordChunks(rs)) == EncodeRecords(rs)
    ensures ReadAsAnswers(reg, full, RecordChunks(rs), RecordsData(reg, rs))
    decreases |rs|
  {
    if |rs| > 0 {
      RecordChunksRead(reg, full, rs[1..]);
      assert RecordChunks(rs)[1..] == RecordChunks(rs[1..]);
      assert RecordsData(reg, rs)[1..] == RecordsData(reg, rs[1..]);
      forall rest: seq<byte>
        ensures DecodeAnswer(reg, EncodeRecord(rs[0]) + rest, full) == Ok(Element(|EncodeRecord(rs[0])|, RecordData(reg, rs[0])))
      {
        RecordRoundTrip(reg, rs[0], rest, full);
      }
    }
  }

  /** An answer that decodes at `cursor` is one turn of the answer loop. */
  lemma {:induction false} AnswerTurnOf(reg: Registry, p: seq<byte>, cursor: nat, n: nat, found: seq<DnsData>, e: Element)
    requires cursor < |p| && n > 0 && DecodeAnswer(reg, p[cursor..], p) == Ok(e)
    ensures Answers(reg, p, cursor, n, found) == Answers(reg, p, cursor + e.consumed, n - 1, found + [e.data])
  {
    assert Answers(reg, p, cursor, n, found) == AnswerTurn(reg, p, cursor, n, found);
  }

  /** One turn of the answer loop over the first of the chunks written from `start` on; the others follow it. */
  lemma {:induction false} ChunkAfter(reg: Registry, p: seq<byte>, pre: seq<byte>, start: nat, chunks: seq<seq<byte>>, datas: seq<DnsData>,
                   post: seq<byte>, n: nat, found: seq<DnsData>)
    requires ReadAsAnswers(reg, p, chunks, datas) && |chunks| > 0 && n > 0
    requires p == pre + Concat(chunks) + post && start == |pre|
    ensures p == pre + chunks[0] + Concat(chunks[1..]) + post
    ensures start + |chunks[0]| == |pre + chunks[0]|
    ensures |Concat(chunks)| == |chunks[0]| + |Concat(chunks[1..])|
    ensures Answers(reg, p, start, n, found) == Answers(reg, p, start + |chunks[0]|, n - 1, found + [datas[0]])
  {
    var first, others := chunks[0], Concat(chunks[1..]);
    AppendAssociates(pre, first + others, post);
    AppendAssociates(first, others, post);
    DropPrefix(p, pre, first + (others + post), start);
    assert |first| > 0;
    assert DecodeAnswer(reg, first + (others + post), p) == Ok(Element(|first|, datas[0]));
    AnswerTurnOf(reg, p, start, n, found, Element(|first|, datas[0]));
    AppendAssociates(pre, first, others + post);
    AppendAssociates(pre + first, others, post);
  }

  /** The answer loop reads back chunks written from `start` on, one element each, in order. */
  lemma {:induction false} ChunksRoundTrip(reg: Registry, p: seq<byte>, pre: seq<byte>, start: nat,
                                           chunks: seq<seq<byte>>, datas: seq<DnsData>, n: nat,
                                           post: seq<byte>, found: seq<DnsData>)
    requires ReadAsAnswers(reg, p, chunks, datas) && n == |chunks|
    requires p == pre + Concat(chunks) + post && start == |pre|
    ensures start + |Concat(chunks)| <= |p|
    ensures Answers(reg, p, start, n, found) == Ran(start + |Concat(chunks)|, found + datas)
    decreases n
  {
    if n > 0 {
      var first := chunks[0];
      ChunkAfter(reg, p, pre, start, chunks, datas, post, n, found);
      ChunksRoundTrip(reg, p, pre + first, start + |first|, chunks[1..], datas[1..], n - 1, post, found + [datas[0]]);
      assert found + [datas[0]] + datas[1..] == found + datas by {
        AppendAssociates(found, [datas[0]], datas[1..]);
        assert [datas[0]] + datas[1..] == datas;
      }
    } else {
      assert found + datas == found;
    }
  }

  /**
   * A turn of the answer loop that does not fail reads one answer, the same
   * whichever number `n` of answers the loop still has to read.
   */
  lemma {:induction false} AnswersStep(reg: Registry, p: seq<byte>, start: nat, k: nat, n: nat, found: seq<DnsData>)
    returns (next: nat, d: DnsData)
    requires start <= |p| && 0 < k && 0 < n
    requires Answers(reg, p, start, k, found).Ran?
    ensures start < next <= |p|
    ensures Answers(reg, p, start, k, found) == Answers(reg, p, next, k - 1, found + [d])
    ensures Answers(reg, p, start, n, found) == Answers(reg, p, next, n - 1, found + [d])
  {
    assert Answers(reg, p, start, k, found) == AnswerRoom(reg, p, start, k, found);
    assert start + 5 <= |p|;
    assert AnswerRoom(reg, p, start, k, found) == AnswerTurn(reg, p, start, k, found);
    match DecodeAnswer(reg, p[start..], p)
    case Err(_) =>
      assert false;
    case Ok(e) =>
      AnswerTurnOf(reg, p, start, k, found, e);
      AnswerTurnOf(reg, p, start, n, found, e);
      next, d := start + e.consumed, e.data;
  }

  /**
   * The answer loop is sequential: once its first `k` turns have run from
   * `start` to `end`, reading `n == k + m` answers from `start` is reading
   * the remaining `m` from `end`.
   */
  lemma {:induction false} AnswersCompose(reg: Registry, p: seq<byte>, start: nat, k: nat, n: nat, m: nat,
                                          found: seq<DnsData>, end: nat, got: seq<DnsData>)
    requires start <= |p| && end <= |p| && n == k + m
    requires Answers(reg, p, start, k, found) == Ran(end, got)
    ensures Answers(reg, p, start, n, found) == Answers(reg, p, end, m, got)
    decreases k
  {
    if k > 0 {
      var next, d := AnswersStep(reg, p, start, k, n, found);
      AnswersCompose(reg, p, next, k - 1, n - 1, m, found + [d], end, got);
    }
  }

  /** The answer loop reads back the records written from `start` on, one element each, in order. */
  lemma {:induction false} AnswersRoundTrip(reg: Registry, p: seq<byte>, pre: seq<byte>, start: nat, rs: seq<Record>, n: nat,
                         post: seq<byte>, found: seq<DnsData>)
    requires AllValidRecords(rs) && AllKnownRecords(reg, rs) && n == |rs|
    requires p == pre + EncodeRecords(rs) + post && start == |pre|
    ensures start + |EncodeRecords(rs)| <= |p|
    ensures Answers(reg, p, start, n, found)
         == Ran(start + |EncodeRecords(rs)|, found + RecordsData(reg, rs))
  {
    RecordChunksRead(reg, p, rs);
    ChunksRoundTrip(reg, p, pre, start, RecordChunks(rs), RecordsData(reg, rs), n, post, found);
  }

  /** Records written from `start` up to the end of the payload are read back to its end. */
  lemma {:induction false} AnswersToEnd(reg: Registry, p: seq<byte>, pre: seq<byte>, start: nat, rs: seq<Record>)
    requires AllValidRecords(rs) && AllKnownRecords(reg, rs)
    requires p == pre + EncodeRecords(rs) && start == |pre|
    ensures Answers(reg, p, start, |rs|, []) == Ran(|p|, RecordsData(reg, rs))
  {
    AppendNil(pre + EncodeRecords(rs));
    AnswersRoundTrip(reg, p, pre, start, rs, |rs|, [], []);
    AppendEmpty(RecordsData(reg, rs));
  }

  // ---------------------------------------------------------------------
  // Whole messages
  // ---------------------------------------------------------------------

  /** A message: the header with both counts, the questions, then the answer records. */
  function EncodeMessage(id: nat, flags: byte, qs: seq<Question>, rs: seq<Record>): (r: seq<byte>)
    requires id < 0x1_0000 && |qs| < 0x1_0000 && |rs| < 0x1_0000
    requires AllValid(qs) && AllValidRecords(rs)
    ensures |r| == 12 + |EncodeQuestions(qs)| + |EncodeRecords(rs)|
  {
    MessageHeader(id, flags, |qs|, |rs|) + EncodeQuestions(qs) + EncodeRecords(rs)
  }

  /** A query message: questions only. */
  function EncodeQuery(id: nat, flags: byte, qs: seq<Question>): (r: seq<byte>)
    requires id < 0x1_0000 && |qs| < 0x1_0000
    requires AllValid(qs)
    ensures |r| == 12 + |EncodeQuestions(qs)|
  {
    EncodeMessage(id, flags, qs, [])
  }

  /** The question loop, started right after the 12-byte header, reads `n` questions and stops at `cursor` with `queries`. */
  predicate QuestionsRan(reg: Registry, p: seq<byte>, n: nat, cursor: nat, queries: seq<DnsData>)
    requires 12 <= |p|
  {
    Questions(reg, p, 12, n, []) == Ran(cursor, queries)
  }

  /** The answer loop, started at `cursor`, reads `n` answers and stops at `end` with `responses`. */
  predicate AnswersRan(reg: Registry, p: seq<byte>, cursor: nat, n: nat, end: nat, responses: seq<DnsData>)
    requires cursor <= |p|
  {
    Answers(reg, p, cursor, n, []) == Ran(end, responses)
  }

  /** A message whose two loops both run assembles into the packet the header and the loops describe. */
  lemma {:induction false} PacketOfRuns(reg: Registry, addressing: Addressing, p: seq<byte>, questionCount: nat, answerCount: nat,
                     cursor: nat, queries: seq<DnsData>, end: nat, responses: seq<DnsData>)
    requires |p| >= 13 && U16(p[4], p[5]) == questionCount && U16(p[6], p[7]) == answerCount
    requires questionCount <= 512 && answerCount <= 512 && 0 < questionCount + answerCount
    requires QuestionsRan(reg, p, questionCount, cursor, queries) && cursor <= |p|
    requires AnswersRan(reg, p, cursor, answerCount, end, responses)
    ensures DecodePacket(reg, Datagram(addressing, p))
         == Some(DnsPacket(addressing, (var id := U16(p[0], p[1]); if id == 0 then None else Some(id)), TypeOf(p[2]),
                           questionCount, answerCount,
                           if questionCount > 0 then Some(queries) else None,
                           if answerCount > 0 then Some(responses) else None,
                           |p| % 0x1_0000_0000))
  {
  }

  /**
   * A written message with at most 512 known questions and at most 512
   * known answer records, not both none, parses to a packet carrying those
   * questions and answers in order, the header's id (none when 0), the
   * query/response flag, both counts and the payload size.
   */
  lemma {:induction false} MessageRoundTrip(reg: Registry, addressing: Addressing, id: nat, flags: byte, qs: seq<Question>, rs: seq<Record>)
    requires id < 0x1_0000 && |qs| <= 512 && |rs| <= 512 && 0 < |qs| + |rs|
    requires AllValid(qs) && AllKnown(reg, qs) && AllValidRecords(rs) && AllKnownRecords(reg, rs)
    ensures DecodePacket(reg, Datagram(addressing, EncodeMessage(id, flags, qs, rs)))
         == Some(DnsPacket(addressing, if id == 0 then None else Some(id), TypeOf(flags), |qs|, |rs|,
                           if |qs| > 0 then Some(QuestionsData(reg, qs)) else None,
                           if |rs| > 0 then Some(RecordsData(reg, rs)) else None,
                           |EncodeMessage(id, flags, qs, rs)| % 0x1_0000_0000))
  {
    var header := MessageHeader(id, flags, |qs|, |rs|);
    var questions, answers := EncodeQuestions(qs), EncodeRecords(rs);
    var p := EncodeMessage(id, flags, qs, rs);
    assert U16(p[0], p[1]) == id && p[2] == flags && U16(p[4], p[5]) == |qs| && U16(p[6], p[7]) == |rs| by {
      AppendAssociates(header, questions, answers);
      MessageHeaderFields(id, flags, |qs|, |rs|, questions + answers);
    }
    MessageOfParts(reg, addressing, p, header, qs, rs);
  }

  /** Any 12-byte header announcing the written questions and records is followed by those, read back. */
  lemma {:induction false} MessageOfParts(reg: Registry, addressing: Addressing, p: seq<byte>, header: seq<byte>, qs: seq<Question>, rs: seq<Record>)
    requires AllValid(qs) && AllKnown(reg, qs) && AllValidRecords(rs) && AllKnownRecords(reg, rs)
    requires |header| == 12 && p == header + EncodeQuestions(qs) + EncodeRecords(rs)
    requires U16(p[4], p[5]) == |qs| <= 512 && U16(p[6], p[7]) == |rs| <= 512 && 0 < |qs| + |rs|
    ensures DecodePacket(reg, Datagram(addressing, p))
         == Some(DnsPacket(addressing, (var id := U16(p[0], p[1]); if id == 0 then None else Some(id)), TypeOf(p[2]),
                           |qs|, |rs|,
                           if |qs| > 0 then Some(QuestionsData(reg, qs)) else None,
                           if |rs| > 0 then Some(RecordsData(reg, rs)) else None,
                           |p| % 0x1_0000_0000))
  {
    LoopsOfParts(reg, p, header, qs, rs);
    PacketOfRuns(reg, addressing, p, |qs|, |rs|, 12 + |EncodeQuestions(qs)|, QuestionsData(reg, qs), |p|, RecordsData(reg, rs));
  }

  /** Both loops read back what was written after a 12-byte header, the answers up to the end of the payload. */
  lemma {:induction false} LoopsOfParts(reg: Registry, p: seq<byte>, header: seq<byte>, qs: seq<Question>, rs: seq<Record>)
    requires AllValid(qs) && AllKnown(reg, qs) && AllValidRecords(rs) && AllKnownRecords(reg, rs)
    requires |header| == 12 && p == header + EncodeQuestions(qs) + EncodeRecords(rs)
    ensures 12 + |EncodeQuestions(qs)| <= |p|
    ensures QuestionsRan(reg, p, |qs|, 12 + |EncodeQuestions(qs)|, QuestionsData(reg, qs))
    ensures AnswersRan(reg, p, 12 + |EncodeQuestions(qs)|, |rs|, |p|, RecordsData(reg, rs))
  {
    QuestionsAfterHeader(reg, p, header, qs, EncodeRecords(rs));
    AnswersToEnd(reg, p, header + EncodeQuestions(qs), 12 + |EncodeQuestions(qs)|, rs);
  }

  /** Questions written right after a 12-byte header are read back by the question loop. */
  lemma {:induction false} QuestionsAfterHeader(reg: Registry, p: seq<byte>, header: seq<byte>, qs: seq<Question>, post: seq<byte>)
    requires AllValid(qs) && AllKnown(reg, qs)
    requires |header| == 12 && p == header + EncodeQuestions(qs) + post
    ensures 12 + |EncodeQuestions(qs)| <= |p|
    ensures QuestionsRan(reg, p, |qs|, 12 + |EncodeQuestions(qs)|, QuestionsData(reg, qs))
  {
    QuestionsFromHeader(reg, p, header, qs, post);
    AppendEmpty(QuestionsData(reg, qs));
  }

  lemma {:induction false} QuestionsFromHeader(reg: Registry, p: seq<byte>, header: seq<byte>, qs: seq<Question>, post: seq<byte>)
    requires AllValid(qs) && AllKnown(reg, qs)
    requires |header| == 12 && p == header + EncodeQuestions(qs) + post
    ensures Questions(reg, p, 12, |qs|, []) == Ran(12 + |EncodeQuestions(qs)|, [] + QuestionsData(reg, qs))
  {
    QuestionsRoundTrip(reg, p, header, 12, qs, |qs|, post, []);
  }

  /**
   * A written query message with 1 to 512 known questions parses to a packet
   * carrying those questions in order, no answers, and the header's id and
   * query/response flag.
   */
  lemma {:induction false} QueryRoundTrip(reg: Registry, addressing: Addressing, id: nat, flags: byte, qs: seq<Question>)
    requires id < 0x1_0000 && 1 <= |qs| <= 512
    requires AllValid(qs) && AllKnown(reg, qs)
    ensures DecodePacket(reg, Datagram(addressing, EncodeQuery(id, flags, qs)))
         == Some(DnsPacket(addressing, if id == 0 then None else Some(id), TypeOf(flags),
                           |qs|, 0, Some(QuestionsData(reg, qs)), None,
                           |EncodeQuery(id, flags, qs)| % 0x1_0000_0000))
  {
    MessageRoundTrip(reg, addressing, id, flags, qs, []);
  }

  // ---------------------------------------------------------------------
  // Rejection
  // ---------------------------------------------------------------------

  /**
   * The question loop cannot get past `cursor`: however many questions it
   * still has to read there, and whatever it has read before, it fails.
   * `QuestionBreaksWhen` states when: fewer than 5 bytes are left, or the
   * question there does not decode.
   */
  ghost predicate QuestionBreaks(reg: Registry, p: seq<byte>, cursor: nat) {
    cursor <= |p| && forall n: nat, found: seq<DnsData> :: n > 0 ==> Questions(reg, p, cursor, n, found).Failed?
  }

  /**
   * The answer loop cannot get past `cursor`: however many answers it still
   * has to read there, and whatever it has read before, it fails.
   * `AnswerBreaksWhen` states when: fewer than 5 bytes are left, or the
   * answer there does not decode.
   */
  ghost predicate AnswerBreaks(reg: Registry, p: seq<byte>, cursor: nat) {
    cursor <= |p| && forall n: nat, found: seq<DnsData> :: n > 0 ==> Answers(reg, p, cursor, n, found).Failed?
  }

  /** The question loop stops for good at `cursor` exactly when fewer than 5 bytes are left or the question does not decode. */
  lemma {:induction false} QuestionBreaksWhen(reg: Registry, p: seq<byte>, cursor: nat)
    requires cursor <= |p|
    ensures QuestionBreaks(reg, p, cursor) <==> |p| < cursor + 5 || DecodeQuestion(reg, p[cursor..]).Err?
  {
    if |p| < cursor + 5 || DecodeQuestion(reg, p[cursor..]).Err? {
      forall n: nat, found: seq<DnsData> | n > 0
        ensures Questions(reg, p, cursor, n, found).Failed?
      {
        assert Questions(reg, p, cursor, n, found) == QuestionRoom(reg, p, cursor, n, found);
        if |p| >= cursor + 5 {
          assert QuestionRoom(reg, p, cursor, n, found) == QuestionTurn(reg, p, cursor, n, found);
        }
      }
    } else {
      var q := DecodeQuestion(reg, p[cursor..]).value;
      assert Questions(reg, p, cursor, 1, []) == QuestionRoom(reg, p, cursor, 1, []);
      assert QuestionRoom(reg, p, cursor, 1, []) == QuestionTurn(reg, p, cursor, 1, []);
      assert QuestionTurn(reg, p, cursor, 1, []) == Ran(cursor + q.consumed, [] + [q.data]);
    }
  }

  /** The answer loop stops for good at `cursor` exactly when fewer than 5 bytes are left or the answer does not decode. */
  lemma {:induction false} AnswerBreaksWhen(reg: Registry, p: seq<byte>, cursor: nat)
    requires cursor <= |p|
    ensures AnswerBreaks(reg, p, cursor) <==> |p| < cursor + 5 || DecodeAnswer(reg, p[cursor..], p).Err?
  {
    if |p| < cursor + 5 || DecodeAnswer(reg, p[cursor..], p).Err? {
      forall n: nat, found: seq<DnsData> | n > 0
        ensures Answers(reg, p, cursor, n, found).Failed?
      {
        assert Answers(reg, p, cursor, n, found) == AnswerRoom(reg, p, cursor, n, found);
        if |p| >= cursor + 5 {
          assert AnswerRoom(reg, p, cursor, n, found) == AnswerTurn(reg, p, cursor, n, found);
        }
      }
    } else {
      var e := DecodeAnswer(reg, p[cursor..], p).value;
      assert Answers(reg, p, cursor, 1, []) == AnswerRoom(reg, p, cursor, 1, []);
      assert AnswerRoom(reg, p, cursor, 1, []) == AnswerTurn(reg, p, cursor, 1, []);
      assert AnswerTurn(reg, p, cursor, 1, []) == Ran(cursor + e.consumed, [] + [e.data]);
    }
  }

  /**
   * After `qs` read back, a question that has not 5 bytes left or does not
   * decode fails the whole question loop.
   */
  lemma {:induction false} QuestionsFailAt(reg: Registry, p: seq<byte>, pre: seq<byte>, start: nat,
                                           qs: seq<Question>, n: nat, post: seq<byte>, found: seq<DnsData>)
    requires AllValid(qs) && AllKnown(reg, qs)
    requires p == pre + EncodeQuestions(qs) + post && start == |pre| && n > |qs|
    requires QuestionBreaks(reg, p, start + |EncodeQuestions(qs)|)
    ensures Questions(reg, p, start, n, found).Failed?
    decreases |qs|
  {
    if |qs| > 0 {
      var q, others := qs[0], EncodeQuestions(qs[1..]);
      var start', found' := start + |EncodeQuestion(q)|, found + [QuestionData(reg, q)];
      assert && p == pre + EncodeQuestion(q) + (others + post)
             && p == (pre + EncodeQuestion(q)) + others + post
             && start' + |others| == start + |EncodeQuestions(qs)| by {
        QuestionsSplit(reg, pre, qs, post, found);
      }
      assert Questions(reg, p, start, n, found) == Questions(reg, p, start', n - 1, found') by {
        QuestionStep(reg, p, pre, start, q, others + post, n, found, start', found');
      }
      assert Questions(reg, p, start', n - 1, found').Failed? by {
        QuestionsFailAt(reg, p, pre + EncodeQuestion(q), start', qs[1..], n - 1, post, found');
      }
    }
  }

  /**
   * When the answer loop fails after the records `rs` written from `start`
   * on, with the answers still to read, it fails from `start`.
   */
  lemma {:induction false} AnswersFailAt(reg: Registry, p: seq<byte>, pre: seq<byte>, start: nat, rs: seq<Record>, n: nat,
                      post: seq<byte>, found: seq<DnsData>, end: nat)
    requires AllValidRecords(rs) && AllKnownRecords(reg, rs)
    requires p == pre + EncodeRecords(rs) + post && start == |pre| && n > |rs|
    requires end == start + |EncodeRecords(rs)| && end <= |p|
    requires Answers(reg, p, end, n - |rs|, found + RecordsData(reg, rs)).Failed?
    ensures Answers(reg, p, start, n, found).Failed?
  {
    AnswersRoundTrip(reg, p, pre, start, rs, |rs|, post, found);
    AnswersCompose(reg, p, start, |rs|, n, n - |rs|, found, end, found + RecordsData(reg, rs));
  }


  /**
   * A message whose header announces more questions than the `qs` written
   * after it, and whose next question does not fit or does not decode, is
   * rejected whole.
   */
  lemma {:induction false} BadQuestionRejectsMessage(reg: Registry, addressing: Addressing, id: nat, flags: byte,
                                  questionCount: nat, answerCount: nat, qs: seq<Question>, post: seq<byte>)
    requires id < 0x1_0000 && questionCount <= 512 && answerCount <= 512 && |qs| < questionCount
    requires AllValid(qs) && AllKnown(reg, qs)
    requires QuestionBreaks(reg, MessageHeader(id, flags, questionCount, answerCount) + EncodeQuestions(qs) + post,
                            12 + |EncodeQuestions(qs)|)
    ensures DecodePacket(reg, Datagram(addressing, MessageHeader(id, flags, questionCount, answerCount) + EncodeQuestions(qs) + post)).None?
  {
    var header := MessageHeader(id, flags, questionCount, answerCount);
    var p := header + EncodeQuestions(qs) + post;
    if |p| >= 13 {
      assert U16(p[4], p[5]) == questionCount && U16(p[6], p[7]) == answerCount by {
        AppendAssociates(header, EncodeQuestions(qs), post);
        MessageHeaderFields(id, flags, questionCount, answerCount, EncodeQuestions(qs) + post);
      }
      QuestionsFailAt(reg, p, header, 12, qs, questionCount, post, []);
      PacketOfFailedQuestions(reg, addressing, p, questionCount);
    }
  }

  /** A message whose question loop fails is rejected whole. */
  lemma {:induction false} PacketOfFailedQuestions(reg: Registry, addressing: Addressing, p: seq<byte>, questionCount: nat)
    requires |p| >= 13 && U16(p[4], p[5]) == questionCount
    requires Questions(reg, p, 12, questionCount, []).Failed?
    ensures DecodePacket(reg, Datagram(addressing, p)).None?
  {
  }

  /** A message whose question loop runs and whose answer loop then fails is rejected whole. */
  lemma {:induction false} PacketOfFailedAnswers(reg: Registry, addressing: Addressing, p: seq<byte>, questionCount: nat, answerCount: nat,
                              cursor: nat, queries: seq<DnsData>)
    requires |p| >= 13 && U16(p[4], p[5]) == questionCount && U16(p[6], p[7]) == answerCount
    requires QuestionsRan(reg, p, questionCount, cursor, queries) && cursor <= |p|
    requires Answers(reg, p, cursor, answerCount, []).Failed?
    ensures DecodePacket(reg, Datagram(addressing, p)).None?
  {
  }
}
