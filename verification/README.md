# nzyme core: a Dafny model

nzyme is a WiFi and Ethernet network monitor. A Rust "tap" captures
traffic and parses it. A Java node stores and analyses what the taps
report, and raises alerts. This project models five pieces of that system
and proves properties of them.

- **The tap's DNS parser.** It decodes a UDP payload as a DNS message in
  the layout of section 4.1 of RFC 1035. That covers the header, the
  question entries and the answer records. It decodes the RDATA of A,
  AAAA, MX and the name-typed records. Domain names are read as
  length-prefixed labels with compression pointers, as in section 4.1.4 of
  RFC 1035. A list of visited offsets guards against pointer loops.
  - The specification is a set of functions. `Scan`, `Questions` and
    `Answers` are recursive; `DecodeName`, `DecodeLabel`,
    `DecodeQuestion`, `DecodeAnswer` and `DecodePacket` are not, and are
    built on them.
  - The name, element and packet parsers are also methods, each proved
    equal to its specification function; the pure helpers `is_pointer`,
    `parse_ipv4` and `parse_ipv6` stay functions. `ParseString`, `ParseQuestions` and
    `ParseAnswers` hold the source's loops as `while` loops with
    invariants. `ParseLabel`, `ParseQueryElement`, `ParseAnswerElement`
    and `Parse` are straight-line methods that call them.
  - Encoders for names, questions, answer records and whole messages are
    each tied to the decoder by a round-trip lemma. The records cover A,
    AAAA, MX, the name types and types whose value is not read. Further
    lemmas show which malformed messages are rejected as a whole.
- **The tap's IPv4 header parser.** It reads the fixed fields of the
  header in section 3.1 of RFC 791, checks the lengths and slices off the
  payload. A header writer is its round-trip partner.
- **The node's string helpers** in `Tools`:
  - the node-name check;
  - the MAC address check, including how Java's `$` treats a final line
    terminator;
  - the human-readable duration;
  - the SSID sanitiser.
- **The REST filter factory.** It maps twelve operator names to operators
  and reads the value of the four numeric ones as a Java `long`.
- **The detection types.** This is the closed set of alert categories,
  each with its title and subsystem.

Java's `String.trim`, `Long.valueOf`, `Long.toString` and truncating
division are modelled in `JavaLong` and `Tools`, because the contracts
depend on them.

## Model

| member | source | states |
|---|---|---|
| DnsParser.IsPointer | tap/src/protocols/parsers/dns_parser.rs:134-137 | a byte starts a pointer exactly when its two high bits are set (value 0xC0 or more) |
| DnsParser.PointerOffset | tap/src/protocols/parsers/dns_parser.rs:183 | the offset is the 14 bits after the two flag bits: below 0x4000, and the big-endian pair minus 0xC000 |
| DnsParser.Lower | tap/src/protocols/parsers/dns_parser.rs:228 | lower-casing keeps the length of a name |
| DnsParser.LowerIdempotent | tap/src/protocols/parsers/dns_parser.rs:228 | lower-casing twice is lower-casing once |
| DnsParser.UnvisitedShrinks | tap/src/protocols/parsers/dns_parser.rs:186-198 | following a new offset strictly shrinks the set of offsets not yet visited, so pointer chains end (at most 0x4000 hops) |
| DnsParser.Scan | tap/src/protocols/parsers/dns_parser.rs:171-228 | the byte loop stops at a zero byte or at the end of the data; the position it reports lies between the next byte and one past the end |
| DnsParser.ScanByte | tap/src/protocols/parsers/dns_parser.rs:172-226 | one turn of the loop consumes at least the byte it reads |
| DnsParser.Follow | tap/src/protocols/parsers/dns_parser.rs:178-209 | a followed pointer needs both of its bytes, and the reported position is the pointer byte's index plus 3 |
| DnsParser.DecodeName | tap/src/protocols/parsers/dns_parser.rs:165-229 | a decoded name consumes between 1 and the data length + 1 bytes; empty data gives an empty name at position 0 |
| DnsParser.ParseString | tap/src/protocols/parsers/dns_parser.rs:165-229 | the loop with mutable cursor, label state and output computes exactly `DecodeName` |
| DnsParser.DecodeLabel | tap/src/protocols/parsers/dns_parser.rs:139-163 | a leading pointer counts as 2 bytes and needs 3 bytes of data; otherwise the name is decoded in place |
| DnsParser.ParseLabel | tap/src/protocols/parsers/dns_parser.rs:139-163 | the method computes exactly `DecodeLabel` |
| DnsParser.DecodeQuestion | tap/src/protocols/parsers/dns_parser.rs:231-272 | a question consumes its decoded name's bytes plus 4 (at least 5, all within the data), carries that name, and has no value, no TTL and an entropy score |
| DnsParser.ParseQueryElement | tap/src/protocols/parsers/dns_parser.rs:231-272 | the method computes exactly `DecodeQuestion` |
| DnsParser.DecodeIpv4 | tap/src/protocols/parsers/dns_parser.rs:424-430 | accepted exactly when there are 4 bytes, which become the address |
| DnsParser.Groups | tap/src/protocols/parsers/dns_parser.rs:437-446 | sixteen bytes read as eight big-endian 16-bit groups |
| DnsParser.DecodeIpv6 | tap/src/protocols/parsers/dns_parser.rs:432-447 | accepted exactly when there are 16 bytes, read as eight groups |
| DnsParser.NameValue | tap/src/protocols/parsers/dns_parser.rs:328-383 | a name-typed value exists exactly when the RDATA decodes as a name, and is that name lower-cased |
| DnsParser.DecodeValue | tap/src/protocols/parsers/dns_parser.rs:316-408 | a type whose value is not read gives no value and no error |
| DnsParser.ValueCases | tap/src/protocols/parsers/dns_parser.rs:316-408 | an A value is accepted exactly with 4 bytes, which are the address; an AAAA value exactly with 16 bytes, read as eight groups; an MX value exactly with at least 3 bytes whose name from byte 2 decodes, giving that name lower-cased; the other name types exactly when the RDATA decodes as a name, giving it lower-cased |
| DnsParser.DecodeAnswer | tap/src/protocols/parsers/dns_parser.rs:275-422 | an accepted answer consumes at least 11 bytes, all within the data, carries a 32-bit TTL, and has an entropy score exactly for the name types |
| DnsParser.AnswerFields | tap/src/protocols/parsers/dns_parser.rs:275-422 | an accepted answer is its decoded owner name, then at least 11 bytes: a known type code and a known class code, the TTL, and RDLENGTH bytes of RDATA that decode to its value; it consumes the name, 10 bytes and RDLENGTH |
| DnsParser.ParseAnswerElement | tap/src/protocols/parsers/dns_parser.rs:275-422 | the method computes exactly `DecodeAnswer` |
| DnsParser.Questions | tap/src/protocols/parsers/dns_parser.rs:49-78 | a successful question loop reads exactly `n` more elements and advances at least 5 bytes per element |
| DnsParser.QuestionRoom | tap/src/protocols/parsers/dns_parser.rs:52-55 | the 5-byte room check before each question keeps the loop's count and cursor bounds |
| DnsParser.QuestionTurn | tap/src/protocols/parsers/dns_parser.rs:57-76 | one question parsed and the rest of the loop keep the count and cursor bounds |
| DnsParser.Answers | tap/src/protocols/parsers/dns_parser.rs:80-108 | a successful answer loop reads exactly `n` more elements and advances at least 11 bytes per element |
| DnsParser.AnswerRoom | tap/src/protocols/parsers/dns_parser.rs:83-86 | the 5-byte room check before each answer keeps the loop's count and cursor bounds |
| DnsParser.AnswerTurn | tap/src/protocols/parsers/dns_parser.rs:88-106 | one answer parsed and the rest of the loop keep the count and cursor bounds |
| DnsParser.TypeOf | tap/src/protocols/parsers/dns_parser.rs:23-36 | the message is a response exactly when the top bit of the flags byte is set |
| DnsParser.DecodePacket | tap/src/protocols/parsers/dns_parser.rs:14-132 | under 13 bytes: no packet; over 512 questions or answers, or none of either: no packet; the QR flag decides the type; the lists hold exactly the header's counts and are absent when a count is 0; id 0 is no transaction id; size is the payload length |
| DnsParser.NextQuestion | tap/src/protocols/parsers/dns_parser.rs:57-76 | one element parse in the loop: a failure fails the whole loop, a success advances the specification by one element |
| DnsParser.ParseQuestions | tap/src/protocols/parsers/dns_parser.rs:48-79 | the counted loop with a mutable cursor computes exactly `Questions` |
| DnsParser.NextAnswer | tap/src/protocols/parsers/dns_parser.rs:88-106 | as `NextQuestion`, for answers |
| DnsParser.ParseAnswers | tap/src/protocols/parsers/dns_parser.rs:80-108 | the counted answer loop computes exactly `Answers` |
| DnsParser.Parse | tap/src/protocols/parsers/dns_parser.rs:14-132 | the method computes exactly `DecodePacket` |
| DnsEncoding.EncodeName | tap/src/protocols/parsers/dns_parser.rs:165-229 | a name in wire form ends with the zero byte and starts with a length below 64 |
| DnsEncoding.ScanLabelBody | tap/src/protocols/parsers/dns_parser.rs:214-225 | inside a label the loop copies the label's bytes unchanged |
| DnsEncoding.ScanLength | tap/src/protocols/parsers/dns_parser.rs:214-219 | a length byte starts a label, after a dot unless it is the first |
| DnsEncoding.ScanZero | tap/src/protocols/parsers/dns_parser.rs:173-176 | a zero byte ends the name, lower-cased, just after itself |
| DnsEncoding.ScanLabel | tap/src/protocols/parsers/dns_parser.rs:171-226 | a whole label is read as its bytes |
| DnsEncoding.ScanLabels | tap/src/protocols/parsers/dns_parser.rs:171-228 | further labels are read as dot-separated text up to the zero byte |
| DnsEncoding.ScanFirstLabel | tap/src/protocols/parsers/dns_parser.rs:214-219 | the first label gets no leading dot |
| DnsEncoding.NameRoundTrip | tap/src/protocols/parsers/dns_parser.rs:165-229 | a name written as labels decodes to its lower-cased dotted text and consumes exactly its wire length |
| DnsEncoding.LabelRoundTrip | tap/src/protocols/parsers/dns_parser.rs:139-163 | an owner name written in place decodes the same way |
| DnsEncoding.EncodeQuestion | tap/src/protocols/parsers/dns_parser.rs:244-258 | a question is its name plus 4 bytes |
| DnsEncoding.QuestionRoundTrip | tap/src/protocols/parsers/dns_parser.rs:231-272 | a written question decodes to its name, type and class, or fails with the first unknown code |
| DnsEncoding.QuestionParts | tap/src/protocols/parsers/dns_parser.rs:231-272 | the decoder finds a written question's name, and its type and class codes right after it |
| DnsEncoding.QuestionOfParts | tap/src/protocols/parsers/dns_parser.rs:231-272 | after a decoded name with 4 bytes left, a question fails on an unknown type, then on an unknown class, and otherwise carries the name and both codes |
| DnsEncoding.EncodeQuestions | tap/src/protocols/parsers/dns_parser.rs:49-78 | each written question takes at least 5 bytes |
| DnsEncoding.QuestionStep | tap/src/protocols/parsers/dns_parser.rs:51-76 | one loop turn over a written, known question moves to the next question and appends its data |
| DnsEncoding.QuestionTurnOf | tap/src/protocols/parsers/dns_parser.rs:51-76 | a question that decodes at the cursor is one turn of the loop: the cursor moves by what it consumed and its data is appended |
| DnsEncoding.QuestionsRoundTrip | tap/src/protocols/parsers/dns_parser.rs:48-79 | the question loop reads back `n` written questions, in order, and stops just after them |
| DnsEncoding.QuestionsCons | tap/src/protocols/parsers/dns_parser.rs:51-76 | reading the first question and then the others is reading the whole list |
| DnsEncoding.QuestionsSplit | tap/src/protocols/parsers/dns_parser.rs:49-78 | the bytes and data of a question list split after the first question |
| DnsEncoding.MessageHeader | tap/src/protocols/parsers/dns_parser.rs:20-39 | the header is 12 bytes |
| DnsEncoding.MessageHeaderFields | tap/src/protocols/parsers/dns_parser.rs:20-39 | the parser reads back the id, flags and both counts written into the header |
| DnsEncoding.EncodeRecordTail | tap/src/protocols/parsers/dns_parser.rs:291-310 | the fixed fields and RDATA take 10 bytes plus the RDATA |
| DnsEncoding.RecordTailFields | tap/src/protocols/parsers/dns_parser.rs:291-310 | the answer decoder reads back type, class, TTL, RDLENGTH and the RDATA |
| DnsEncoding.GroupBytes | tap/src/protocols/parsers/dns_parser.rs:432-447 | eight groups are written as 16 bytes |
| DnsEncoding.Ipv6RoundTrip | tap/src/protocols/parsers/dns_parser.rs:432-447 | eight 16-bit groups written big-endian decode back to the same groups |
| DnsMessages.RDataRoundTrip | tap/src/protocols/parsers/dns_parser.rs:316-408 | RDATA of the shape its type calls for decodes to its value: the four octets, the eight groups of sixteen bytes, the lower-cased name, the MX name after the 2-byte preference, or no value for a type that is not read |
| DnsMessages.EncodeRecord | tap/src/protocols/parsers/dns_parser.rs:275-422 | a record is its owner name, 10 bytes of fixed fields and its RDATA |
| DnsMessages.RecordRoundTrip | tap/src/protocols/parsers/dns_parser.rs:275-422 | a written record decodes to its lower-cased owner, type, class, TTL and value, with an entropy score exactly for the name types, consuming name + 10 + RDLENGTH bytes; it fails with AnswerTooShort when its RDATA is empty and nothing follows, then on an unknown type, then on an unknown class |
| DnsMessages.RecordParts | tap/src/protocols/parsers/dns_parser.rs:275-310 | the decoder finds a written record's owner name and reads back its type, class, TTL, RDLENGTH and RDATA |
| DnsMessages.AnswerOfParts | tap/src/protocols/parsers/dns_parser.rs:275-422 | after a decoded name, an answer fails when fewer than 11 bytes follow, then on an unknown type or class, then as its value fails; otherwise it carries the name, codes, TTL and value |
| DnsMessages.Ipv6RecordRoundTrip | tap/src/protocols/parsers/dns_parser.rs:432-447 | an AAAA record written from eight 16-bit groups decodes to exactly those groups, with no entropy score, consuming name + 26 bytes |
| DnsMessages.EncodeRecords | tap/src/protocols/parsers/dns_parser.rs:80-108 | each written record takes at least 11 bytes |
| DnsMessages.RecordsData | tap/src/protocols/parsers/dns_parser.rs:80-108 | one element per record |
| DnsMessages.AnswerTurnOf | tap/src/protocols/parsers/dns_parser.rs:88-106 | an answer that decodes at the cursor is one turn of the loop: the cursor moves by what it consumed and its data is appended |
| DnsMessages.RecordChunksRead | tap/src/protocols/parsers/dns_parser.rs:88-97 | the bytes of written records are the records' encodings one after another, and each known one decodes to its own data, consuming exactly its own bytes, whatever follows it |
| DnsMessages.ChunkAfter | tap/src/protocols/parsers/dns_parser.rs:82-97 | over byte strings each read as one answer, a turn of the loop reads the first and moves the cursor just past it, onto the next |
| DnsMessages.ChunksRoundTrip | tap/src/protocols/parsers/dns_parser.rs:80-108 | the loop reads back `n` such byte strings, one element each in order, and stops just after the last |
| DnsMessages.AnswersStep | tap/src/protocols/parsers/dns_parser.rs:82-97 | a turn of the loop that does not fail reads one answer, moving the cursor forward, the same whatever number of answers remains |
| DnsMessages.AnswersCompose | tap/src/protocols/parsers/dns_parser.rs:80-108 | the loop is sequential: once `k` turns have run from one cursor to another, reading `k + m` answers from the first is reading `m` from the second, with what the `k` turns read |
| DnsMessages.AnswersRoundTrip | tap/src/protocols/parsers/dns_parser.rs:80-108 | the answer loop reads back `n` written records, in order, and stops just after them |
| DnsMessages.AnswersToEnd | tap/src/protocols/parsers/dns_parser.rs:80-108 | records written up to the end of the payload are read back up to its end |
| DnsMessages.EncodeMessage | tap/src/protocols/parsers/dns_parser.rs:14-132 | a message is the 12-byte header, then its questions, then its records |
| DnsMessages.EncodeQuery | tap/src/protocols/parsers/dns_parser.rs:14-132 | a query message is the 12-byte header plus its questions |
| DnsMessages.PacketOfRuns | tap/src/protocols/parsers/dns_parser.rs:42-117 | a message whose question and answer loops both succeed parses to the packet its header and loops describe |
| DnsMessages.MessageRoundTrip | tap/src/protocols/parsers/dns_parser.rs:14-132 | a message with at most 512 known questions and at most 512 known records, not both none, parses to exactly those questions and records in order, the written id (none for 0), the query/response flag, both counts and the size |
| DnsMessages.MessageOfParts | tap/src/protocols/parsers/dns_parser.rs:14-132 | any 12-byte header announcing the written questions and records, followed by them, parses to that packet |
| DnsMessages.LoopsOfParts | tap/src/protocols/parsers/dns_parser.rs:42-108 | after a 12-byte header both loops read back what was written, the answers up to the end of the payload |
| DnsMessages.QuestionsAfterHeader | tap/src/protocols/parsers/dns_parser.rs:48-79 | questions written right after the 12-byte header are read back by the question loop |
| DnsMessages.QuestionsFromHeader | tap/src/protocols/parsers/dns_parser.rs:48-79 | the question loop from byte 12 reads back the written questions |
| DnsMessages.QueryRoundTrip | tap/src/protocols/parsers/dns_parser.rs:14-132 | a query with 1 to 512 known questions parses to exactly those questions in order, no answers, and the written id, type and size |
| DnsMessages.QuestionBreaksWhen | tap/src/protocols/parsers/dns_parser.rs:48-79 | the question loop fails at a cursor for every count left and everything read before exactly when fewer than 5 bytes are left there or the question there does not decode |
| DnsMessages.AnswerBreaksWhen | tap/src/protocols/parsers/dns_parser.rs:80-108 | the answer loop fails at a cursor for every count left and everything read before exactly when fewer than 5 bytes are left there or the answer there does not decode |
| DnsMessages.QuestionsFailAt | tap/src/protocols/parsers/dns_parser.rs:48-79 | after questions that read back, one that cannot be read fails the whole question loop |
| DnsMessages.AnswersFailAt | tap/src/protocols/parsers/dns_parser.rs:80-108 | when the loop fails after records that read back, with the answers left to read, it fails from the first of those records |
| DnsMessages.BadQuestionRejectsMessage | tap/src/protocols/parsers/dns_parser.rs:42-79 | a message announcing more questions than are written, whose next question does not fit or does not decode, gives no packet |
| DnsMessages.PacketOfFailedQuestions | tap/src/protocols/parsers/dns_parser.rs:42-79 | a payload of at least 13 bytes whose question loop fails gives no packet |
| DnsMessages.PacketOfFailedAnswers | tap/src/protocols/parsers/dns_parser.rs:42-108 | a payload of at least 13 bytes whose question loop runs and whose answer loop then fails gives no packet |
| DnsProperties.ScanPointer | tap/src/protocols/parsers/dns_parser.rs:178-179 | a pointer byte is followed whatever the label state, even inside a label |
| DnsProperties.PointerAfterLabel | tap/src/protocols/parsers/dns_parser.rs:199-209 | a pointer after a label reports the pointer byte's position + 3 and appends the target after a dot, leaving the prefix as written |
| DnsProperties.PointerResolved | tap/src/protocols/parsers/dns_parser.rs:178-209 | a pointer to a new offset within the packet appends the name found there after a dot and reports the pointer byte's position + 3 |
| DnsProperties.LeadingPointer | tap/src/protocols/parsers/dns_parser.rs:199-209 | a pointer as the first byte gives a name that starts with a dot and reports position 3 |
| DnsProperties.SelfPointerRejected | tap/src/protocols/parsers/dns_parser.rs:139-192 | an owner name whose pointer leads back to itself is rejected as recursive |
| DnsProperties.VisitedPointerRejected | tap/src/protocols/parsers/dns_parser.rs:190-192 | a pointer, at any position and in any label state, to an offset already visited is an error, for the byte loop and for a whole name |
| DnsProperties.PointerBeyondPacketRejected | tap/src/protocols/parsers/dns_parser.rs:196-198 | a pointer, at any position and in any label state, beyond the end of the packet is an error, for the byte loop and for a whole name |
| DnsProperties.TruncatedPointerRejected | tap/src/protocols/parsers/dns_parser.rs:179-181 | a pointer byte that is the last byte of the data is an error, for the byte loop and for a whole name |
| Ipv4Parser.CheckedMul | tap/src/protocols/parsers/ipv4_parser.rs:31-36 | the product, or nothing when it exceeds the 64-bit `usize` |
| Ipv4Parser.CheckedDiv | tap/src/protocols/parsers/ipv4_parser.rs:31-36 | the quotient, or nothing for a zero divisor |
| Ipv4Parser.HeaderLengthBounds | tap/src/protocols/parsers/ipv4_parser.rs:31-36 | the header length is IHL times 4, a multiple of 4 of at most 60, and the overflow branch is never taken |
| Ipv4Parser.Parse | tap/src/protocols/parsers/ipv4_parser.rs:27-68 | accepted exactly when the packet has 20 bytes or more, at least the header length, and a Total Length between the header length and the packet length; the fields come from fixed offsets; the payload is everything after the header; size is the packet length |
| Ipv4Parser.ParseFromEthernet | tap/src/protocols/parsers/ipv4_parser.rs:9-20 | empty frame data is rejected exactly, before byte 0 is read; otherwise the frame's data is parsed with both MACs and the timestamp, which the result keeps |
| Ipv4Parser.ParseRaw | tap/src/protocols/parsers/ipv4_parser.rs:22-25 | both MACs are absent |
| Ipv4Parser.EncodeHeader | tap/src/protocols/parsers/ipv4_parser.rs:27-68 | a header with IHL words is IHL times 4 bytes |
| Ipv4Parser.HeaderRoundTrip | tap/src/protocols/parsers/ipv4_parser.rs:27-68 | a written header followed by a payload parses back to the header's fields and exactly that payload |
| Ipv4Parser.ZeroIhlAccepted | tap/src/protocols/parsers/ipv4_parser.rs:31-53 | an IHL of 0 is not rejected: header length 0 and the whole packet as payload |
| Ipv4Parser.TrailingBytesKept | tap/src/protocols/parsers/ipv4_parser.rs:42-53 | bytes past Total Length stay in the payload |
| JavaLong.DigitValue | src/main/java/app/nzyme/core/util/filters/FilterFactory.java:28 | a decimal digit has a value below ten |
| JavaLong.DigitChar | src/main/java/app/nzyme/core/util/Tools.java:67 | the digit written for a value reads back as that value |
| JavaLong.Digits | src/main/java/app/nzyme/core/util/Tools.java:67 | the shortest decimal digits of a number: non-empty, all digits, spelling that number, no leading zero |
| JavaLong.Format | src/main/java/app/nzyme/core/util/Tools.java:67 | `Long.toString`: a leading minus exactly for negative numbers, then digits |
| JavaLong.ParseLong | src/main/java/app/nzyme/core/util/filters/FilterFactory.java:28 | `Long.valueOf`: only values in the `long` range, never for empty text, and only text that starts with a sign or a digit |
| JavaLong.DigitsRoundTrip | src/main/java/app/nzyme/core/util/filters/FilterFactory.java:28 | digits read back as their number when it fits a `long`, and are refused when it does not |
| JavaLong.FormatRoundTrip | src/main/java/app/nzyme/core/util/filters/FilterFactory.java:28 | every `long`, written by `Long.toString`, reads back as itself |
| JavaLong.PlusSignIgnored | src/main/java/app/nzyme/core/util/filters/FilterFactory.java:28 | a leading `+` before a digit changes nothing |
| JavaLong.AcceptedIsSignedDigits | src/main/java/app/nzyme/core/util/filters/FilterFactory.java:28 | accepted text is an optional sign followed by at least one digit and nothing else, and its value is those digits' number, negated after a minus |
| JavaLong.NonDigitRejected | src/main/java/app/nzyme/core/util/filters/FilterFactory.java:28 | text with a non-digit anywhere but a leading sign is refused |
| JavaLong.SignAloneRejected | src/main/java/app/nzyme/core/util/filters/FilterFactory.java:28 | a `+` or `-` with no digit after it is refused |
| JavaLong.DigitsAccepted | src/main/java/app/nzyme/core/util/filters/FilterFactory.java:28 | any run of digits, leading zeros included, reads back as its value when that fits a `long` and is refused otherwise; a `+` before it changes nothing, and after a `-` it reads back negated exactly when that fits |
| JavaLong.NegativeDigitsRoundTrip | src/main/java/app/nzyme/core/util/filters/FilterFactory.java:28 | a minus followed by the digits of a number reads back as its negation exactly when that fits a `long`, and is refused otherwise |
| JavaLong.Quot | src/main/java/app/nzyme/core/util/Tools.java:62-78 | the quotient truncates toward zero: the remainder has the dividend's sign and is smaller than the divisor |
| JavaLong.QuotNegate | src/main/java/app/nzyme/core/util/Tools.java:62-78 | negating the dividend negates the quotient |
| Tools.LeadingBlanks | src/main/java/app/nzyme/core/util/Tools.java:45 | the length of the leading run of characters up to U+0020 |
| Tools.TrailingBlanks | src/main/java/app/nzyme/core/util/Tools.java:88 | the length of the trailing run of characters up to U+0020 |
| Tools.Trim | src/main/java/app/nzyme/core/util/Tools.java:88 | `String.trim`: empty exactly for all-blank text; the result is the slice from the first to the last non-blank character, and every non-blank character is inside it |
| Tools.TrimKeepsTrimmed | src/main/java/app/nzyme/core/util/Tools.java:88 | text that neither starts nor ends with a blank is its own trim |
| Tools.IsSafeNodeName | src/main/java/app/nzyme/core/util/Tools.java:37-50 | null and all-blank names are refused; a name is accepted exactly when it has 1 to 254 characters, all letters, digits, `-` or `_` |
| Tools.IsValidMacAddress | src/main/java/app/nzyme/core/util/Tools.java:38-59 | null and empty text are refused; an accepted address has 17 to 19 characters |
| Tools.HexValue | src/main/java/app/nzyme/core/util/Tools.java:38 | a hex digit of either case has a value below 16 |
| Tools.HexChar | src/main/java/app/nzyme/core/util/Tools.java:38 | the digit written for a value reads back as that value |
| Tools.FormatMac | src/main/java/app/nzyme/core/util/Tools.java:38 | six octets written as colon-separated pairs, each digit in its own chosen case, take 17 characters |
| Tools.MacOctets | src/main/java/app/nzyme/core/util/Tools.java:38 | an accepted address spells six octets |
| Tools.FormattedMacAccepted | src/main/java/app/nzyme/core/util/Tools.java:38-59 | a written address, with any mix of letter cases, followed by `rest` is accepted exactly when `rest` is empty, one line terminator or `\r\n`, and its octets read back |
| Tools.LowerMac | src/main/java/app/nzyme/core/util/Tools.java:38 | the lower-cased address takes 17 characters |
| Tools.PairRoundTrip | src/main/java/app/nzyme/core/util/Tools.java:38 | an octet read from a hex pair and written back gives the pair in lower case, and in each digit's own case the pair itself |
| Tools.MacDigitsFirst | src/main/java/app/nzyme/core/util/Tools.java:38 | the first three octets written back give their pairs in lower case, and in each digit's own case the pairs themselves |
| Tools.MacDigitsLast | src/main/java/app/nzyme/core/util/Tools.java:38 | the last three octets written back give their pairs in lower case, and in each digit's own case the pairs themselves |
| Tools.MacKeepsCase | src/main/java/app/nzyme/core/util/Tools.java:38 | an address is the formatting of its octets in the case of its own digits |
| Tools.AcceptedMacIsFormatted | src/main/java/app/nzyme/core/util/Tools.java:38-59 | every accepted address is six hex pairs joined by colons, then at most one final line terminator; its 17 characters are exactly the written form of its octets in its digits' cases, and lower-cased they are the lower-case written form |
| Tools.DurationToHumanReadable | src/main/java/app/nzyme/core/util/Tools.java:61-79 | "n/a" exactly when the duration truncates to 0 seconds |
| Tools.DurationBuckets | src/main/java/app/nzyme/core/util/Tools.java:61-79 | for non-negative durations: "n/a" under 1 s, seconds under 60 s, minutes under 2 h, hours up to 3 days, days beyond, with the count in each bucket's range |
| Tools.NegativeDurationInSeconds | src/main/java/app/nzyme/core/util/Tools.java:61-67 | a negative duration of at least one second is printed as a negative count of seconds |
| Tools.DurationCountReadsBack | src/main/java/app/nzyme/core/util/Tools.java:61-79 | the printed count reads back as the truncated number of units |
| Tools.RemoveAll | src/main/java/app/nzyme/core/util/Tools.java:82-86 | `replaceAll(class, "")`: no character of the class is left, and text without one is unchanged |
| Tools.RemoveAllCounts | src/main/java/app/nzyme/core/util/Tools.java:82-86 | every other character is kept as often as it occurs |
| Tools.RemoveAllKeeps | src/main/java/app/nzyme/core/util/Tools.java:82-86 | removal keeps any property all characters had |
| Tools.RemoveAllAppend | src/main/java/app/nzyme/core/util/Tools.java:82-86 | removing from a concatenation is removing from each part |
| Tools.StripRemovedAppend | src/main/java/app/nzyme/core/util/Tools.java:82-86 | the five removal steps on a concatenation act on each part |
| Tools.StripRemovedClean | src/main/java/app/nzyme/core/util/Tools.java:82-86 | text with no removed character is left unchanged by the removal steps |
| Tools.SkipSpaces | src/main/java/app/nzyme/core/util/Tools.java:87 | the text after its leading spaces, which does not start with a space |
| Tools.CollapseSpaces | src/main/java/app/nzyme/core/util/Tools.java:87 | `replaceAll(" +", " ")`: no two spaces in a row, and the first and last characters are kept |
| Tools.CollapseKeeps | src/main/java/app/nzyme/core/util/Tools.java:87 | collapsing keeps any property all characters had |
| Tools.CollapseKeepsText | src/main/java/app/nzyme/core/util/Tools.java:87 | collapsing changes only spaces |
| Tools.SkippedSpacesVanish | src/main/java/app/nzyme/core/util/Tools.java:87 | the skipped spaces are only spaces |
| Tools.CollapseKeepsSingleSpaces | src/main/java/app/nzyme/core/util/Tools.java:87 | text without two spaces in a row is left unchanged |
| Tools.CollapseStep | src/main/java/app/nzyme/core/util/Tools.java:87 | without a second space at its head, collapsing a text is collapsing its tail |
| Tools.NoDoubleSpaceTail | src/main/java/app/nzyme/core/util/Tools.java:87 | a text's tail keeps the no-double-space property |
| Tools.CollapseCounts | src/main/java/app/nzyme/core/util/Tools.java:87 | collapsing keeps every character but the space as often as it occurs |
| Tools.CollapseDropSpace | src/main/java/app/nzyme/core/util/Tools.java:87 | a text that starts with two spaces collapses as its tail does |
| Tools.CollapseRun | src/main/java/app/nzyme/core/util/Tools.java:87 | two spaces in a row anywhere collapse as one space does |
| Tools.StripRemoved | src/main/java/app/nzyme/core/util/Tools.java:82-86 | the five removal steps leave no NUL, control, other `\p{C}`, line or paragraph separator, or tab, and leave clean text unchanged |
| Tools.StripRemovedCounts | src/main/java/app/nzyme/core/util/Tools.java:82-86 | the removal steps keep every other character as often as it occurs |
| Tools.SanitizeSsid | src/main/java/app/nzyme/core/util/Tools.java:81-89 | the result has no removed character, no two spaces in a row and no blank at either end |
| Tools.TrimKeepsClean | src/main/java/app/nzyme/core/util/Tools.java:87-88 | trimming clean, collapsed text gives a sanitised result |
| Tools.SanitizeIdempotent | src/main/java/app/nzyme/core/util/Tools.java:81-89 | sanitising twice is sanitising once |
| Tools.SanitizedUnchanged | src/main/java/app/nzyme/core/util/Tools.java:81-89 | a sanitised text, with no removed character, no two spaces in a row and no blank at either end, is its own sanitisation |
| Tools.SanitizeKeepsText | src/main/java/app/nzyme/core/util/Tools.java:81-89 | every character that is not removed and is not a space survives as often as it occurs |
| Tools.TrimKeepsNonBlank | src/main/java/app/nzyme/core/util/Tools.java:88 | trimming keeps every non-blank character as often as it occurs |
| FilterFactory.NumericFilter | src/main/java/app/nzyme/core/util/filters/FilterFactory.java:26-49 | a numeric filter exists exactly when the value is a `long`, and it carries that number; otherwise the value is refused |
| FilterFactory.FromRestQuery | src/main/java/app/nzyme/core/util/filters/FilterFactory.java:16-69 | a result names the queried operator and keeps the field; text operators carry the value unchanged, numeric ones the parsed `long`; a refusal names the unknown operator or the non-numeric value |
| FilterFactory.OperatorNamesDistinct | src/main/java/app/nzyme/core/util/filters/FilterFactory.java:17-65 | the twelve names are pairwise distinct, so the mapping is injective |
| FilterFactory.NamedOperatorAccepted | src/main/java/app/nzyme/core/util/filters/FilterFactory.java:17-65 | every operator is reached by its name: text operators always, numeric ones exactly when the value parses |
| FilterFactory.NumericValueRoundTrip | src/main/java/app/nzyme/core/util/filters/FilterFactory.java:26-49 | a numeric operator given the text of any `long` carries back that number |
| FilterFactory.UnknownOperatorRefused | src/main/java/app/nzyme/core/util/filters/FilterFactory.java:66-67 | a name outside the twelve is refused, whatever the field and value |
| FilterFactory.RefusedOperatorIsUnknown | src/main/java/app/nzyme/core/util/filters/FilterFactory.java:66-67 | an operator refused as unknown is none of the twelve names: there is no default |
| DetectionTypes.Ordinal | src/main/java/app/nzyme/core/detection/alerts/DetectionType.java:8-24 | every type has its place in declaration order |
| DetectionTypes.Title | src/main/java/app/nzyme/core/detection/alerts/DetectionType.java:29-36 | `getTitle` is total and gives one of the declared titles |
| DetectionTypes.SubsystemOf | src/main/java/app/nzyme/core/detection/alerts/DetectionType.java:8-40 | GENERIC exactly for the wildcard, DOT11 for every other type |
| DetectionTypes.AllTypesComplete | src/main/java/app/nzyme/core/detection/alerts/DetectionType.java:8-24 | there are exactly 13 types, each listed once |
| DetectionTypes.EightNetworkMonitorTypes | src/main/java/app/nzyme/core/detection/alerts/DetectionType.java:8-15 | the network monitor types are exactly the eight declared first |
| DetectionTypes.TitlesAreDistinct | src/main/java/app/nzyme/core/detection/alerts/DetectionType.java:8-24 | the 13 titles are pairwise distinct |
| DetectionTypes.TitlesDistinct | src/main/java/app/nzyme/core/detection/alerts/DetectionType.java:8-36 | a title identifies its type |

## Left out

- DnsParser.DecodeAnswer: the Shannon entropy of a value (floating point) is not computed. Only whether a score is attached (`hasEntropy`) is modelled: the five name types in answers, and every question.
- DnsParser.DecodeAnswer: the registered-domain lookup (`psl::domain_str`, a public-suffix list in a foreign crate) and `is_ip_address` are not modelled.
- DnsParser.DecodePacket: the capture time (`Utc::now`) is not part of the packet.
- DnsParser.Lower: names are byte sequences lower-cased in ASCII. `String::from_utf8_lossy` and Unicode `to_lowercase` are not modelled, so non-ASCII bytes are kept as they are.
- DnsParser.Registry: the `DNSDataType` and `DNSClass` conversion tables are not part of this model. They are a parameter mapping codes to types and listing known classes.
- DnsParser.DecodeIpv4, DnsParser.DecodeIpv6: the text forms (`Ipv4Addr`/`Ipv6Addr::to_string`) are not modelled. Addresses are their four octets or eight groups.
- DnsParser.ParseString: the visited-offset vector is passed by value. After a call returns, no caller reads it again, so in-place mutation is not modelled.
- DnsEncoding.NameRoundTrip: the round trip covers labels without bytes of 0xC0 or more. The decoder follows such a byte as a pointer even inside a label (see DnsProperties.ScanPointer).
- DnsMessages.AnswersRoundTrip: the written records all have at least one byte of RDATA. The parser asks for 11 bytes after an owner name, so a record with empty RDATA is read only when bytes follow it (DnsMessages.RecordRoundTrip states both cases).
- DnsMessages.EncodeMessage: the written header has zero authority and additional counts, and nothing follows the answers. The parser does not read those sections.
- Ipv4Parser.ParseRaw: the source indexes byte 0 of an empty raw packet and would panic; the model requires a non-empty packet.
- Ipv4Parser.CheckedMul: `usize` is taken to be 64 bits wide.
- Ipv4Parser.Parse: the source and destination addresses are kept as their four raw bytes. The conversion to an address value (`to_ipv4_address`, ipv4_parser.rs:50-51) is not modelled.
- Ipv4Parser.Parse: the capture timestamp is a number passed through unchanged.
- Tools: `round`, `buildTcpSessionKey` (SHA-256), `stringtoInetAddress` (name resolution) and `isTapActive` (wall clock) are not modelled.
- Tools.SanitizeSsid: `\p{C}` beyond category Cc (format, surrogate, private-use and unassigned code points) is the parameter `otherC`. Strings are sequences of Unicode scalar values, so lone UTF-16 surrogates cannot occur.
- Tools.SanitizeSsid: `@NotNull` is taken at its word, so a null SSID is not modelled.
- Tools.DurationToHumanReadable: a Joda `Duration` is its millisecond count, and the standard units are truncating divisions of it.
- Tools.IsSafeNodeName: lengths count characters. They equal Java's UTF-16 lengths for every name it accepts, since those are ASCII.
- JavaLong.ParseLong: only ASCII digits are read. `Long.valueOf` also accepts other Unicode decimal digits.
- FilterFactory.FromRestQuery: a null operator or value is not modelled. `Filter.create` and how filters are evaluated are not part of this model.
- DetectionTypes.Subsystem: only the two subsystems the detection types use are modelled; Subsystem.java is not part of this model.
