/**
 * Encoders for the DNS shapes the parser reads, and the round trips that tie
 * each encoder to its decoder: a name written as length-prefixed labels, a
 * question and a list of questions, the message header, the fixed tail of
 * a resource record, and a 16-byte IPv6 address. Whole records and messages
 * are written in `DnsMessages`.
 */
module DnsEncoding {
  import opened Wrappers
  import opened DnsParser

  /**
   * A label the parser reads back unchanged: 1 to 63 bytes, none of them zero
   * (a zero byte ends the name) and none of 0xC0 or more (such a byte is
   * taken as a pointer even inside a label).
   */
  predicate ValidLabel(l: seq<byte>) {
    1 <= |l| <= 63 && forall k :: 0 <= k < |l| ==> 0 < l[k] < 0xC0
  }

  predicate ValidLabels(labels: seq<seq<byte>>) {
    forall j :: 0 <= j < |labels| ==> ValidLabel(labels[j])
  }

  /** Each label preceded by its length byte. */
  function EncodeLabels(labels: seq<seq<byte>>): (r: seq<byte>)
    requires ValidLabels(labels)
    ensures |labels| > 0 ==> |r| > |labels[0]| && r[0] == |labels[0]|
  {
    if |labels| == 0 then [] else [|labels[0]|] + labels[0] + EncodeLabels(labels[1..])
  }

  /** A name in wire form: its labels, then the zero byte. */
  function EncodeName(labels: seq<seq<byte>>): (r: seq<byte>)
    requires ValidLabels(labels)
    ensures |r| >= 1 && r[|r| - 1] == 0 && r[0] < 64
  {
    EncodeLabels(labels) + [0]
  }

  /** Every label after the first, each preceded by a dot. */
  function Dotted(labels: seq<seq<byte>>): (r: seq<byte>) {
    if |labels| == 0 then [] else [Dot] + labels[0] + Dotted(labels[1..])
  }

  /** The text form of a name: its labels joined by dots. */
  function JoinLabels(labels: seq<seq<byte>>): (r: seq<byte>) {
    if |labels| == 0 then [] else labels[0] + Dotted(labels[1..])
  }

  lemma AppendAssociates<T>(a: seq<T>, b: seq<T>, c: seq<T>)
    ensures a + b + c == a + (b + c)
  {
  }

  lemma AppendEmpty<T>(a: seq<T>)
    ensures [] + a == a
  {
  }

  lemma AppendNil<T>(a: seq<T>)
    ensures a + [] == a
  {
  }

  /** Past a prefix lies the rest. */
  lemma DropPrefix<T>(p: seq<T>, pre: seq<T>, y: seq<T>, start: nat)
    requires p == pre + y && start == |pre|
    ensures start <= |p| && p[start..] == y
  {
  }

  /** A name with a first label is that label's length byte, its bytes, then the rest of the name. */
  lemma EncodeNameCons(labels: seq<seq<byte>>)
    requires ValidLabels(labels) && |labels| > 0
    ensures EncodeName(labels) == [|labels[0]|] + labels[0] + EncodeName(labels[1..])
  {
  }

  /** Inside a label, the decoder copies the label's bytes and ends at its last byte. */
  lemma {:induction false} ScanLabelBody(pre: seq<byte>, l: seq<byte>, post: seq<byte>, full: seq<byte>,
                                         visited: seq<nat>, chars: seq<byte>, initial: bool)
    requires |l| < 256 && forall k :: 0 <= k < |l| ==> 0 < l[k] < 0xC0
    ensures Scan(pre + l + post, full, visited, |pre|, chars, |l|, initial)
         == Scan(pre + l + post, full, visited, |pre| + |l|, chars + l, 0, initial)
    decreases |l|
  {
    var data := pre + l + post;
    if |l| > 0 {
      assert data[|pre|] == l[0];
      var pre' := pre + [l[0]];
      assert data == pre' + l[1..] + post;
      ScanLabelBody(pre', l[1..], post, full, visited, chars + [l[0]], initial);
      assert chars + [l[0]] + l[1..] == chars + l;
    } else {
      assert chars + l == chars;
    }
  }

  /** A length byte outside a label starts the next label, after a dot unless it is the first. */
  lemma ScanLength(data: seq<byte>, full: seq<byte>, visited: seq<nat>, i: nat, chars: seq<byte>, initial: bool)
    requires i < |data| && 0 < data[i] < 0xC0
    ensures Scan(data, full, visited, i, chars, 0, initial)
         == Scan(data, full, visited, i + 1, if initial then chars else chars + [Dot], data[i], false)
  {
  }

  /** A zero byte outside a pointer ends the name, lower-cased. */
  lemma ScanZero(data: seq<byte>, full: seq<byte>, visited: seq<nat>, i: nat, chars: seq<byte>, section: byte, initial: bool)
    requires i < |data| && data[i] == 0
    ensures Scan(data, full, visited, i, chars, section, initial) == Ok(Decoded(i + 1, Lower(chars)))
  {
  }

  /**
   * One label after `pre`: its length byte, then its bytes, appended after a
   * dot unless this is the first label.
   */
  lemma ScanLabel(pre: seq<byte>, l: seq<byte>, post: seq<byte>, full: seq<byte>, visited: seq<nat>,
                  chars: seq<byte>, initial: bool)
    requires ValidLabel(l)
    ensures Scan(pre + ([|l|] + l) + post, full, visited, |pre|, chars, 0, initial)
         == Scan(pre + ([|l|] + l) + post, full, visited, |pre + ([|l|] + l)|,
                 (if initial then chars else chars + [Dot]) + l, 0, false)
  {
    var data := pre + ([|l|] + l) + post;
    assert data[|pre|] == |l|;
    ScanLength(data, full, visited, |pre|, chars, initial);
    assert data == (pre + [|l|]) + l + post;
    ScanLabelBody(pre + [|l|], l, post, full, visited, if initial then chars else chars + [Dot], false);
  }

  /** After the first label, each further label adds a dot and its bytes; the zero byte ends the name. */
  lemma {:induction false} ScanLabels(pre: seq<byte>, labels: seq<seq<byte>>, post: seq<byte>, full: seq<byte>,
                                      visited: seq<nat>, chars: seq<byte>)
    requires ValidLabels(labels)
    ensures Scan(pre + EncodeName(labels) + post, full, visited, |pre|, chars, 0, false)
         == Ok(Decoded(|pre| + |EncodeName(labels)|, Lower(chars + Dotted(labels))))
    decreases |labels|
  {
    var enc := EncodeName(labels);
    var data := pre + enc + post;
    if |labels| == 0 {
      assert data[|pre|] == 0;
      ScanZero(data, full, visited, |pre|, chars, 0, false);
      assert chars + Dotted(labels) == chars;
    } else {
      var l := labels[0];
      var tail := EncodeName(labels[1..]);
      var pre' := pre + ([|l|] + l);
      EncodeNameCons(labels);
      AppendAssociates(pre, [|l|] + l, tail);
      AppendAssociates(pre', tail, post);
      ScanLabel(pre, l, tail + post, full, visited, chars, false);
      ScanLabels(pre', labels[1..], post, full, visited, chars + [Dot] + l);
      assert |pre'| + |tail| == |pre| + |enc|;
      assert chars + [Dot] + l + Dotted(labels[1..]) == chars + Dotted(labels);
    }
  }

  /** The first label of a name is copied without a dot. */
  lemma ScanFirstLabel(l: seq<byte>, after: seq<byte>, full: seq<byte>, visited: seq<nat>)
    requires ValidLabel(l)
    ensures Scan([|l|] + l + after, full, visited, 0, [], 0, true)
         == Scan([|l|] + l + after, full, visited, |[|l|] + l|, l, 0, false)
  {
    AppendEmpty([|l|] + l);
    AppendEmpty(l);
    ScanLabel([], l, after, full, visited, [], true);
  }

  /** A name in wire form decodes to its lower-cased dotted text and is consumed exactly. */
  lemma NameRoundTrip(labels: seq<seq<byte>>, rest: seq<byte>, full: seq<byte>, visited: seq<nat>)
    requires ValidLabels(labels)
    ensures DecodeName(EncodeName(labels) + rest, full, visited)
         == Ok(Decoded(|EncodeName(labels)|, Lower(JoinLabels(labels))))
  {
    var enc := EncodeName(labels);
    if |labels| == 0 {
      assert (enc + rest)[0] == 0;
      ScanZero(enc + rest, full, visited, 0, [], 0, true);
    } else {
      var l := labels[0];
      var tail := EncodeName(labels[1..]);
      EncodeNameCons(labels);
      AppendAssociates([|l|] + l, tail, rest);
      ScanFirstLabel(l, tail + rest, full, visited);
      ScanLabels([|l|] + l, labels[1..], rest, full, visited, l);
      assert |[|l|] + l| + |tail| == |enc|;
    }
  }

  /** An answer's owner name written in place (not as a pointer) decodes as any name does. */
  lemma LabelRoundTrip(labels: seq<seq<byte>>, rest: seq<byte>, full: seq<byte>)
    requires ValidLabels(labels)
    ensures DecodeLabel(EncodeName(labels) + rest, full)
         == Ok(Decoded(|EncodeName(labels)|, Lower(JoinLabels(labels))))
  {
    NameRoundTrip(labels, rest, full, []);
  }

  /** A question: name, type code and class code. */
  datatype Question = Question(labels: seq<seq<byte>>, typeCode: nat, classCode: nat)

  predicate ValidQuestion(q: Question) {
    ValidLabels(q.labels) && q.typeCode < 0x1_0000 && q.classCode < 0x1_0000
  }

  function EncodeQuestion(q: Question): (r: seq<byte>)
    requires ValidQuestion(q)
    ensures |r| == |EncodeName(q.labels)| + 4
  {
    EncodeName(q.labels) + U16Bytes(q.typeCode) + U16Bytes(q.classCode)
  }

  /** A question whose codes are both known decodes to its name, type and class. */
  predicate Known(reg: Registry, q: Question) {
    q.typeCode in reg.types && q.classCode in reg.classes
  }

  /** What the parser makes of a known question. */
  function QuestionData(reg: Registry, q: Question): DnsData
    requires Known(reg, q)
  {
    DnsData(Lower(JoinLabels(q.labels)), reg.types[q.typeCode], q.classCode, None, true, None)
  }

  /** A written question decodes to its data, or fails on the first unknown code. */
  lemma QuestionRoundTrip(reg: Registry, q: Question, rest: seq<byte>)
    requires ValidQuestion(q)
    ensures DecodeQuestion(reg, EncodeQuestion(q) + rest)
         == if q.typeCode !in reg.types then Err(UnknownType(q.typeCode))
            else if q.classCode !in reg.classes then Err(UnknownClass(q.classCode))
            else Ok(Element(|EncodeQuestion(q)|, QuestionData(reg, q)))
  {
    var data, c := EncodeQuestion(q) + rest, |EncodeName(q.labels)|;
    QuestionParts(q, rest);
    QuestionOfParts(reg, data, c, Lower(JoinLabels(q.labels)));
  }

  /** The name and the two codes of a written question, as the question decoder reads them. */
  lemma QuestionParts(q: Question, rest: seq<byte>)
    requires ValidQuestion(q)
    ensures var data, c := EncodeQuestion(q) + rest, |EncodeName(q.labels)|;
      && |data| >= c + 4
      && DecodeName(data, data, []) == Ok(Decoded(c, Lower(JoinLabels(q.labels))))
      && U16(data[c], data[c + 1]) == q.typeCode
      && U16(data[c + 2], data[c + 3]) == q.classCode
  {
    var name, codes := EncodeName(q.labels), U16Bytes(q.typeCode) + U16Bytes(q.classCode);
    var data := EncodeQuestion(q) + rest;
    assert data == name + (codes + rest) by {
      AppendAssociates(name, codes, rest);
    }
    NameRoundTrip(q.labels, codes + rest, data, []);
    var c := |name|;
    assert data[c] == U16Bytes(q.typeCode)[0] && data[c + 1] == U16Bytes(q.typeCode)[1];
    assert data[c + 2] == U16Bytes(q.classCode)[0] && data[c + 3] == U16Bytes(q.classCode)[1];
  }

  /** The question decoder over a name that ends at `c` and is followed by both codes. */
  lemma QuestionOfParts(reg: Registry, data: seq<byte>, c: nat, name: seq<byte>)
    requires DecodeName(data, data, []) == Ok(Decoded(c, name)) && c + 4 <= |data|
    ensures DecodeQuestion(reg, data)
         == if U16(data[c], data[c + 1]) !in reg.types then Err(UnknownType(U16(data[c], data[c + 1])))
            else if U16(data[c + 2], data[c + 3]) !in reg.classes then Err(UnknownClass(U16(data[c + 2], data[c + 3])))
            else Ok(Element(c + 4, DnsData(name, reg.types[U16(data[c], data[c + 1])], U16(data[c + 2], data[c + 3]), None, true, None)))
  {
  }

  /** Every question is well formed. */
  predicate AllValid(qs: seq<Question>) {
    |qs| == 0 || (ValidQuestion(qs[0]) && AllValid(qs[1..]))
  }

  /** Every question has known codes. */
  predicate AllKnown(reg: Registry, qs: seq<Question>) {
    |qs| == 0 || (Known(reg, qs[0]) && AllKnown(reg, qs[1..]))
  }

  /** Questions written one after another. */
  function EncodeQuestions(qs: seq<Question>): (r: seq<byte>)
    requires AllValid(qs)
    ensures |r| >= 5 * |qs|
  {
    if |qs| == 0 then [] else EncodeQuestion(qs[0]) + EncodeQuestions(qs[1..])
  }

  function QuestionsData(reg: Registry, qs: seq<Question>): (r: seq<DnsData>)
    requires AllKnown(reg, qs)
    ensures |r| == |qs|
  {
    if |qs| == 0 then [] else [QuestionData(reg, qs[0])] + QuestionsData(reg, qs[1..])
  }


  /** One turn of the question loop over a written, known question at `start`, ending at `next`. */
  lemma QuestionStep(reg: Registry, p: seq<byte>, pre: seq<byte>, start: nat, q: Question, rest: seq<byte>,
                     n: nat, found: seq<DnsData>, next: nat, found': seq<DnsData>)
    requires ValidQuestion(q) && Known(reg, q) && n > 0
    requires p == pre + EncodeQuestion(q) + rest && start == |pre|
    requires next == start + |EncodeQuestion(q)| && found' == found + [QuestionData(reg, q)]
    ensures Questions(reg, p, start, n, found) == Questions(reg, p, next, n - 1, found')
  {
    var e := Element(|EncodeQuestion(q)|, QuestionData(reg, q));
    assert p[start..] == EncodeQuestion(q) + rest by {
      AppendAssociates(pre, EncodeQuestion(q), rest);
    }
    assert DecodeQuestion(reg, p[start..]) == Ok(e) by {
      QuestionRoundTrip(reg, q, rest);
    }
    QuestionTurnOf(reg, p, start, n, found, e);
  }

  /** A question that decodes at `cursor` is one turn of the question loop. */
  lemma QuestionTurnOf(reg: Registry, p: seq<byte>, cursor: nat, n: nat, found: seq<DnsData>, e: Element)
    requires cursor + 5 <= |p| && n > 0 && DecodeQuestion(reg, p[cursor..]) == Ok(e)
    ensures Questions(reg, p, cursor, n, found) == Questions(reg, p, cursor + e.consumed, n - 1, found + [e.data])
  {
    assert Questions(reg, p, cursor, n, found) == QuestionTurn(reg, p, cursor, n, found);
  }

  /** The question loop reads back `n` written questions, one element each, in order. */
  lemma {:induction false} QuestionsRoundTrip(reg: Registry, p: seq<byte>, pre: seq<byte>, start: nat,
                                              qs: seq<Question>, n: nat, post: seq<byte>, found: seq<DnsData>)
    requires AllValid(qs) && AllKnown(reg, qs)
    requires p == pre + EncodeQuestions(qs) + post && start == |pre| && n == |qs|
    ensures Questions(reg, p, start, n, found)
         == Ran(start + |EncodeQuestions(qs)|, found + QuestionsData(reg, qs))
    decreases n
  {
    if n > 0 {
      var q := qs[0];
      QuestionsSplit(reg, pre, qs, post, found);
      var start', found' := start + |EncodeQuestion(q)|, found + [QuestionData(reg, q)];
      QuestionsRoundTrip(reg, p, pre + EncodeQuestion(q), start', qs[1..], n - 1, post, found');
      QuestionsCons(reg, p, pre, start, qs, n, post, found, start', found');
    } else {
      assert found + QuestionsData(reg, qs) == found;
      assert |EncodeQuestions(qs)| == 0;
    }
  }

  /** The first question read back, followed by the others read back, is the whole list read back. */
  lemma QuestionsCons(reg: Registry, p: seq<byte>, pre: seq<byte>, start: nat, qs: seq<Question>, n: nat,
                      post: seq<byte>, found: seq<DnsData>, start': nat, found': seq<DnsData>)
    requires AllValid(qs) && AllKnown(reg, qs) && n > 0
    requires p == pre + EncodeQuestions(qs) + post && start == |pre| && n == |qs|
    requires start' == start + |EncodeQuestion(qs[0])| && found' == found + [QuestionData(reg, qs[0])]
    requires Questions(reg, p, start', n - 1, found') == Ran(start' + |EncodeQuestions(qs[1..])|, found' + QuestionsData(reg, qs[1..]))
    ensures Questions(reg, p, start, n, found)
         == Ran(start + |EncodeQuestions(qs)|, found + QuestionsData(reg, qs))
  {
    QuestionsSplit(reg, pre, qs, post, found);
    QuestionStep(reg, p, pre, start, qs[0], EncodeQuestions(qs[1..]) + post, n, found, start', found');
    assert start' + |EncodeQuestions(qs[1..])| == start + |EncodeQuestions(qs)|;
    assert found' + QuestionsData(reg, qs[1..]) == found + QuestionsData(reg, qs);
  }

  /** The bytes and the data of a non-empty question list, split after the first question. */
  lemma QuestionsSplit(reg: Registry, pre: seq<byte>, qs: seq<Question>, post: seq<byte>, found: seq<DnsData>)
    requires AllValid(qs) && AllKnown(reg, qs) && |qs| > 0
    ensures var first, others := EncodeQuestion(qs[0]), EncodeQuestions(qs[1..]);
      && pre + EncodeQuestions(qs) + post == pre + first + (others + post)
      && pre + EncodeQuestions(qs) + post == (pre + first) + others + post
      && |EncodeQuestions(qs)| == |first| + |others|
    ensures found + QuestionsData(reg, qs) == found + [QuestionData(reg, qs[0])] + QuestionsData(reg, qs[1..])
  {
    var first, others := EncodeQuestion(qs[0]), EncodeQuestions(qs[1..]);
    assert EncodeQuestions(qs) == first + others;
    AppendAssociates(pre, first, others);
    AppendAssociates(pre + first, others, post);
    AppendAssociates(pre, first, others + post);
    assert QuestionsData(reg, qs) == [QuestionData(reg, qs[0])] + QuestionsData(reg, qs[1..]);
    AppendAssociates(found, [QuestionData(reg, qs[0])], QuestionsData(reg, qs[1..]));
  }

  /**
   * A message header: the transaction id, a flags byte and a zero byte, the
   * question and answer counts, and zero authority and additional counts.
   */
  function MessageHeader(id: nat, flags: byte, questionCount: nat, answerCount: nat): (r: seq<byte>)
    requires id < 0x1_0000 && questionCount < 0x1_0000 && answerCount < 0x1_0000
    ensures |r| == 12
  {
    U16Bytes(id) + [flags, 0] + U16Bytes(questionCount) + U16Bytes(answerCount) + [0, 0, 0, 0]
  }

  /** The header fields of a written message, whatever follows the header. */
  lemma MessageHeaderFields(id: nat, flags: byte, questionCount: nat, answerCount: nat, rest: seq<byte>)
    requires id < 0x1_0000 && questionCount < 0x1_0000 && answerCount < 0x1_0000
    ensures var p := MessageHeader(id, flags, questionCount, answerCount) + rest;
      && U16(p[0], p[1]) == id && p[2] == flags
      && U16(p[4], p[5]) == questionCount && U16(p[6], p[7]) == answerCount
  {
    var header := MessageHeader(id, flags, questionCount, answerCount);
    var p := header + rest;
    assert p[0] == header[0] && p[1] == header[1] && p[2] == flags;
    assert p[4] == header[4] && p[5] == header[5] && p[6] == header[6] && p[7] == header[7];
  }

  /** The fixed fields and RDATA of a resource record, after its owner name. */
  function EncodeRecordTail(typeCode: nat, classCode: nat, ttl: nat, rdata: seq<byte>): (r: seq<byte>)
    requires typeCode < 0x1_0000 && classCode < 0x1_0000 && ttl < 0x1_0000_0000 && |rdata| < 0x1_0000
    ensures |r| == 10 + |rdata|
  {
    U16Bytes(typeCode) + U16Bytes(classCode) + U32Bytes(ttl) + U16Bytes(|rdata|) + rdata
  }

  /** The fields of a record tail written after `name`, as the answer decoder reads them. */
  lemma RecordTailFields(name: seq<byte>, typeCode: nat, classCode: nat, ttl: nat, rdata: seq<byte>, rest: seq<byte>)
    requires typeCode < 0x1_0000 && classCode < 0x1_0000 && ttl < 0x1_0000_0000 && |rdata| < 0x1_0000
    ensures var data, c := name + EncodeRecordTail(typeCode, classCode, ttl, rdata) + rest, |name|;
      && |data| >= c + 10 + |rdata|
      && U16(data[c], data[c + 1]) == typeCode
      && U16(data[c + 2], data[c + 3]) == classCode
      && U32(data[c + 4], data[c + 5], data[c + 6], data[c + 7]) == ttl
      && U16(data[c + 8], data[c + 9]) == |rdata|
      && data[c + 10 .. c + 10 + U16(data[c + 8], data[c + 9])] == rdata
  {
    var tail := EncodeRecordTail(typeCode, classCode, ttl, rdata);
    var data, c := name + tail + rest, |name|;
    var t, k, l, v := U16Bytes(typeCode), U16Bytes(classCode), U32Bytes(ttl), U16Bytes(|rdata|);
    assert data[c] == t[0] && data[c + 1] == t[1];
    assert data[c + 2] == k[0] && data[c + 3] == k[1];
    assert data[c + 4] == l[0] && data[c + 5] == l[1] && data[c + 6] == l[2] && data[c + 7] == l[3];
    assert data[c + 8] == v[0] && data[c + 9] == v[1];
    assert data[c + 10 .. c + 10 + |rdata|] == rdata;
  }

  /** The sixteen bytes of eight 16-bit groups, each big-endian. */
  function GroupBytes(groups: seq<nat>): (r: seq<byte>)
    requires |groups| == 8 && forall k :: 0 <= k < 8 ==> groups[k] < 0x1_0000
    ensures |r| == 16
  {
    seq(16, k requires 0 <= k < 16 => if k % 2 == 0 then groups[k / 2] / 256 else groups[k / 2] % 256)
  }

  /** An IPv6 address written as its groups decodes back to the same groups. */
  lemma Ipv6RoundTrip(groups: seq<nat>)
    requires |groups| == 8 && forall k :: 0 <= k < 8 ==> groups[k] < 0x1_0000
    ensures DecodeIpv6(GroupBytes(groups)) == Ok(Address6(groups))
  {
    var data := GroupBytes(groups);
    var g := Groups(data);
    forall k | 0 <= k < 8
      ensures g[k] == groups[k]
    {
      assert data[2 * k] == groups[k] / 256 && data[2 * k + 1] == groups[k] % 256;
    }
    assert g == groups;
  }
}
