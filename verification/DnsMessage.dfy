/**
 DNS messages as dns/src/secure_resolver.rs builds and parses them (section 4.1 of
 RFC 1035; TXT of section 3.3.14, A of section 3.4.1, AAAA of section 2.2 of RFC 3596,
 SRV of RFC 2782). Names and texts are byte strings, addresses their octets.

 `Parse` is what the parsing loops compute. The printer next to it writes any list of
 questions and answers; `ParseReturnsTheAnswers` says that parsing such a message, names
 compressed or not, gives back exactly the answers of the requested type, in order.
 */
module DnsMessage {
  import opened Bytes
  import opened DnsName

  /** The record types of the provider model; only the first four have a number here. */
  datatype RecordType = A | AAAA | TXT | SRV | CNAME | MX | NS

  datatype Data =
    | V4(octets: seq<byte>)
    | V6(octets: seq<byte>)
    | Text(text: seq<byte>)
    | Service(priority: u16, weight: u16, port: u16, target: seq<byte>)

  datatype Record = Record(name: seq<byte>, rtype: RecordType, ttl: u32, data: Data)

  datatype Error =
    | TooShort | IdMismatch(id: u16) | Rcode(code: nat) | NoSections
    | BadQuestionName | BadAnswerName | Truncated | RDataTruncated
    | BadA | BadAaaa | TxtTruncated | SrvTooShort | BadSrvTarget | Unsupported

  datatype Result<+T> = Ok(value: T) | Err(error: Error)

  const HEADER := 12

  function TypeNumber(rt: RecordType): Option<u16> {
    match rt
    case A => Some(1)
    case AAAA => Some(28)
    case TXT => Some(16)
    case SRV => Some(33)
    case _ => None
  }

  /** The type number answers must carry; 0xFFFF for types without one. */
  function Wanted(rt: RecordType): u16 {
    match TypeNumber(rt)
    case Some(n) => n
    case None => 0xFFFF
  }

  // ---- What the parser computes ----

  /** The length-prefixed strings of a TXT record, joined. */
  function JoinChunks(rdata: seq<byte>): Option<seq<byte>> {
    if rdata == [] then Some([])
    else if 1 + rdata[0] > |rdata| then None
    else
      match JoinChunks(rdata[1 + rdata[0]..])
      case None => None
      case Some(t) => Some(rdata[1..1 + rdata[0]] + t)
  }

  /** The typed record in `msg[start..start + len]`; an SRV target is read from the whole message. */
  function RecordAt(msg: seq<byte>, rt: RecordType, name: seq<byte>, ttl: u32, start: nat, len: nat): Result<Record>
    requires start + len <= |msg|
  {
    var rdata := msg[start..start + len];
    match rt
    case A => if len != 4 then Err(BadA) else Ok(Record(TrimDots(name), A, ttl, V4(rdata)))
    case AAAA => if len != 16 then Err(BadAaaa) else Ok(Record(TrimDots(name), AAAA, ttl, V6(rdata)))
    case TXT =>
      (match JoinChunks(rdata)
       case None => Err(TxtTruncated)
       case Some(t) => Ok(Record(TrimDots(name), TXT, ttl, Text(t))))
    case SRV =>
      if len < 6 then Err(SrvTooShort)
      else
        (match DecodeAt(msg, start + 6, 0)
         case None => Err(BadSrvTarget)
         case Some(d) =>
           Ok(Record(TrimDots(name), SRV, ttl,
                     Service(U16At(msg, start), U16At(msg, start + 2), U16At(msg, start + 4),
                             TrimDots(Join(d.labels))))))
    case _ => Err(Unsupported)
  }

  /** Where the sections after `n` questions begin. */
  function SkipQuestions(msg: seq<byte>, pos: nat, n: nat): Result<nat>
    decreases n
  {
    if n == 0 then Ok(pos)
    else
      match DecodeAt(msg, pos, 0)
      case None => Err(BadQuestionName)
      case Some(d) => if d.next + 4 > |msg| then Err(Truncated) else SkipQuestions(msg, d.next + 4, n - 1)
  }

  /** The fixed part of an answer after its name, and its data. */
  datatype Head = Head(rtype: u16, ttl: u32, start: nat, len: nat)

  function HeadAt(msg: seq<byte>, pos: nat): (r: Result<Head>)
    ensures r.Ok? ==> r.value.start == pos + 10 && r.value.start + r.value.len <= |msg|
  {
    if pos + 10 > |msg| then Err(Truncated)
    else if pos + 10 + U16At(msg, pos + 8) > |msg| then Err(RDataTruncated)
    else Ok(Head(U16At(msg, pos), U32At(msg, pos + 4), pos + 10, U16At(msg, pos + 8)))
  }

  function ParseAnswers(msg: seq<byte>, pos: nat, n: nat, rt: RecordType): Result<seq<Record>>
    decreases n
  {
    if n == 0 then Ok([])
    else
      match DecodeAt(msg, pos, 0)
      case None => Err(BadAnswerName)
      case Some(d) =>
        match HeadAt(msg, d.next)
        case Err(e) => Err(e)
        case Ok(h) =>
          var rest := ParseAnswers(msg, h.start + h.len, n - 1, rt);
          if h.rtype != Wanted(rt) then rest
          else
            match RecordAt(msg, rt, Join(d.labels), h.ttl, h.start, h.len)
            case Err(e) => Err(e)
            case Ok(rec) => if rest.Err? then rest else Ok([rec] + rest.value)
  }

  function Parse(msg: seq<byte>, rt: RecordType, id: u16): Result<seq<Record>> {
    if |msg| < HEADER then Err(TooShort)
    else if U16At(msg, 0) != id then Err(IdMismatch(U16At(msg, 0)))
    else if U16At(msg, 2) % 16 != 0 then Err(Rcode(U16At(msg, 2) % 16))
    else if U16At(msg, 4) == 0 && U16At(msg, 6) == 0 then Err(NoSections)
    else
      match SkipQuestions(msg, HEADER, U16At(msg, 4))
      case Err(e) => Err(e)
      case Ok(pos) => ParseAnswers(msg, pos, U16At(msg, 6), rt)
  }

  // ---- Printing ----

  function U16Bytes(n: u16): (b: seq<byte>)
    ensures |b| == 2
  {
    [n / 256, n % 256]
  }

  function U32Bytes(n: u32): (b: seq<byte>)
    ensures |b| == 4
  {
    U16Bytes(n / 0x1_0000) + U16Bytes(n % 0x1_0000)
  }

  datatype Question = Question(name: Layout, qtype: u16, qclass: u16)

  datatype RData =
    | RA(octets: seq<byte>)
    | RAaaa(octets: seq<byte>)
    | RTxt(chunks: seq<seq<byte>>)
    | RSrv(priority: u16, weight: u16, port: u16, target: Layout)
    | ROther(rtype: u16, raw: seq<byte>)

  datatype Answer = Answer(owner: Layout, class_: u16, ttl: u32, rdata: RData)

  function RType(d: RData): u16 {
    match d
    case RA(_) => 1
    case RAaaa(_) => 28
    case RTxt(_) => 16
    case RSrv(_, _, _, _) => 33
    case ROther(n, _) => n
  }

  predicate IsRData(d: RData) {
    && (match d
        case RA(o) => |o| == 4
        case RAaaa(o) => |o| == 16
        case RTxt(chunks) => forall c | c in chunks :: |c| < 256
        case RSrv(_, _, _, target) => IsWritable(target)
        case ROther(_, _) => true)
    && |RDataBytes(d)| < 0x1_0000
  }

  function ChunkBytes(chunks: seq<seq<byte>>): seq<byte> {
    if chunks == [] then [] else [|chunks[0]| % 256] + chunks[0] + ChunkBytes(chunks[1..])
  }

  function Concat(chunks: seq<seq<byte>>): seq<byte> {
    if chunks == [] then [] else chunks[0] + Concat(chunks[1..])
  }

  function RDataBytes(d: RData): seq<byte> {
    match d
    case RA(o) => o
    case RAaaa(o) => o
    case RTxt(chunks) => ChunkBytes(chunks)
    case RSrv(p, w, port, target) => (U16Bytes(p) + U16Bytes(w) + U16Bytes(port)) + NameBytes(target)
    case ROther(_, raw) => raw
  }

  function NameBytes(l: Layout): seq<byte> {
    if IsWritable(l) then Written(l) else []
  }

  function QuestionBytes(q: Question): seq<byte> {
    NameBytes(q.name) + (U16Bytes(q.qtype) + U16Bytes(q.qclass))
  }

  function QuestionsBytes(qs: seq<Question>): seq<byte> {
    if qs == [] then [] else QuestionBytes(qs[0]) + QuestionsBytes(qs[1..])
  }

  function HeadBytes(a: Answer): (b: seq<byte>)
    ensures |b| == 10
  {
    (U16Bytes(RType(a.rdata)) + U16Bytes(a.class_)) + (U32Bytes(a.ttl) + U16Bytes(|RDataBytes(a.rdata)| % 0x1_0000))
  }

  function AnswerBytes(a: Answer): seq<byte> {
    NameBytes(a.owner) + (HeadBytes(a) + RDataBytes(a.rdata))
  }

  function AnswersBytes(answers: seq<Answer>): seq<byte> {
    if answers == [] then [] else AnswerBytes(answers[0]) + AnswersBytes(answers[1..])
  }

  function HeaderBytes(id: u16, flags: u16, qd: u16, an: u16, ns: u16, ar: u16): (b: seq<byte>)
    ensures |b| == HEADER
  {
    (U16Bytes(id) + U16Bytes(flags)) + (U16Bytes(qd) + U16Bytes(an)) + (U16Bytes(ns) + U16Bytes(ar))
  }

  /** A message; `tail` holds whatever follows the answer section. */
  function MessageBytes(id: u16, flags: u16, qs: seq<Question>, answers: seq<Answer>, ns: u16, ar: u16, tail: seq<byte>): seq<byte>
    requires |qs| < 0x1_0000 && |answers| < 0x1_0000
  {
    HeaderBytes(id, flags, |qs|, |answers|, ns, ar) + (QuestionsBytes(qs) + (AnswersBytes(answers) + tail))
  }

  // ---- Which messages, and what must come back ----

  /** A name that can be written, whose pointer leads to the right place, within the jump limit. */
  predicate GoodName(msg: seq<byte>, l: Layout) {
    IsWritable(l) && Resolves(msg, l) && Hops(l) <= MAX_JUMPS
  }

  predicate GoodQuestions(msg: seq<byte>, qs: seq<Question>) {
    forall q | q in qs :: GoodName(msg, q.name)
  }

  /** Data of other types may be any bytes; an SRV target need only be good when SRV records are asked for. */
  predicate GoodAnswer(msg: seq<byte>, a: Answer, rt: RecordType) {
    && GoodName(msg, a.owner) && IsRData(a.rdata)
    && (a.rdata.RSrv? && rt == SRV ==> GoodName(msg, a.rdata.target))
    && (a.rdata.ROther? ==> a.rdata.rtype != Wanted(rt))
  }

  predicate GoodAnswers(msg: seq<byte>, answers: seq<Answer>, rt: RecordType) {
    forall a | a in answers :: GoodAnswer(msg, a, rt)
  }

  function NameText(l: Layout): seq<byte> {
    TrimDots(Join(Labels(l)))
  }

  function Meaning(a: Answer, rt: RecordType): Record {
    Record(NameText(a.owner), rt, a.ttl,
           match a.rdata
           case RA(o) => V4(o)
           case RAaaa(o) => V6(o)
           case RTxt(chunks) => Text(Concat(chunks))
           case RSrv(p, w, port, target) => Service(p, w, port, NameText(target))
           case ROther(_, raw) => Text(raw))
  }

  /** The answers of the requested type, in order. */
  function Expected(answers: seq<Answer>, rt: RecordType): seq<Record> {
    if answers == [] then []
    else (if RType(answers[0].rdata) == Wanted(rt) then [Meaning(answers[0], rt)] else [])
         + Expected(answers[1..], rt)
  }

  // ---- Numbers and fixed parts ----

  lemma U16ReadsBack(msg: seq<byte>, pos: nat, n: u16)
    requires At(msg, pos, U16Bytes(n))
    ensures pos + 2 <= |msg| && U16At(msg, pos) == n
  {
    AtByte(msg, pos, U16Bytes(n), 0);
    AtByte(msg, pos, U16Bytes(n), 1);
  }

  lemma U32ReadsBack(msg: seq<byte>, pos: nat, n: u32)
    requires At(msg, pos, U32Bytes(n))
    ensures pos + 4 <= |msg| && U32At(msg, pos) == n
  {
    AtSplit(msg, pos, U16Bytes(n / 0x1_0000), U16Bytes(n % 0x1_0000));
    U16ReadsBack(msg, pos, n / 0x1_0000);
    U16ReadsBack(msg, pos + 2, n % 0x1_0000);
  }

  lemma HeadReadsBack(msg: seq<byte>, pos: nat, a: Answer)
    requires At(msg, pos, HeadBytes(a) + RDataBytes(a.rdata)) && IsRData(a.rdata)
    ensures HeadAt(msg, pos) == Ok(Head(RType(a.rdata), a.ttl, pos + 10, |RDataBytes(a.rdata)|))
    ensures At(msg, pos + 10, RDataBytes(a.rdata))
  {
    hide RDataBytes, IsRData;
    var len: u16 := |RDataBytes(a.rdata)| % 0x1_0000;
    AtSplit(msg, pos, HeadBytes(a), RDataBytes(a.rdata));
    AtSplit(msg, pos, U16Bytes(RType(a.rdata)) + U16Bytes(a.class_), U32Bytes(a.ttl) + U16Bytes(len));
    AtSplit(msg, pos, U16Bytes(RType(a.rdata)), U16Bytes(a.class_));
    AtSplit(msg, pos + 4, U32Bytes(a.ttl), U16Bytes(len));
    U16ReadsBack(msg, pos, RType(a.rdata));
    U32ReadsBack(msg, pos + 4, a.ttl);
    U16ReadsBack(msg, pos + 8, len);
    RDataFits(a.rdata);
  }

  lemma RDataFits(d: RData)
    requires IsRData(d)
    ensures |RDataBytes(d)| < 0x1_0000
  {
  }

  // ---- One record ----

  lemma {:induction false} ChunksReadBack(chunks: seq<seq<byte>>)
    requires forall c | c in chunks :: |c| < 256
    ensures JoinChunks(ChunkBytes(chunks)) == Some(Concat(chunks))
  {
    if chunks != [] {
      var c, rest := chunks[0], ChunkBytes(chunks[1..]);
      ChunksReadBack(chunks[1..]);
      var b := [|c| % 256] + c + rest;
      assert b[1 + |c|..] == rest && b[1..1 + |c|] == c;
    }
  }

  lemma SrvReadsBack(msg: seq<byte>, pos: nat, p: u16, w: u16, port: u16, target: Layout)
    requires GoodName(msg, target)
    requires At(msg, pos, (U16Bytes(p) + U16Bytes(w) + U16Bytes(port)) + NameBytes(target))
    ensures pos + 6 <= |msg|
    ensures U16At(msg, pos) == p && U16At(msg, pos + 2) == w && U16At(msg, pos + 4) == port
    ensures DecodeAt(msg, pos + 6, 0) == Some(Decoded(Labels(target), pos + 6 + |NameBytes(target)|))
  {
    AtSplit(msg, pos, U16Bytes(p) + U16Bytes(w) + U16Bytes(port), NameBytes(target));
    AtSplit(msg, pos, U16Bytes(p) + U16Bytes(w), U16Bytes(port));
    AtSplit(msg, pos, U16Bytes(p), U16Bytes(w));
    U16ReadsBack(msg, pos, p);
    U16ReadsBack(msg, pos + 2, w);
    U16ReadsBack(msg, pos + 4, port);
    NameReadsBack(msg, pos + 6, target);
  }

  lemma RecordReadsBack(msg: seq<byte>, pos: nat, a: Answer, rt: RecordType)
    requires GoodAnswer(msg, a, rt) && RType(a.rdata) == Wanted(rt)
    requires At(msg, pos, RDataBytes(a.rdata))
    ensures RecordAt(msg, rt, Join(Labels(a.owner)), a.ttl, pos, |RDataBytes(a.rdata)|) == Ok(Meaning(a, rt))
  {
    match a.rdata {
      case RA(o) =>
      case RAaaa(o) =>
      case RTxt(chunks) => ChunksReadBack(chunks);
      case RSrv(p, w, port, target) => SrvReadsBack(msg, pos, p, w, port, target);
      case ROther(_, _) =>
    }
  }

  // ---- Whole sections ----

  lemma QuestionReadsBack(msg: seq<byte>, pos: nat, q: Question)
    requires GoodName(msg, q.name) && At(msg, pos, QuestionBytes(q))
    ensures DecodeAt(msg, pos, 0) == Some(Decoded(Labels(q.name), pos + |NameBytes(q.name)|))
    ensures pos + |NameBytes(q.name)| + 4 <= |msg| && |QuestionBytes(q)| == |NameBytes(q.name)| + 4
  {
    hide NameBytes, U16Bytes;
    AtSplit(msg, pos, NameBytes(q.name), U16Bytes(q.qtype) + U16Bytes(q.qclass));
    NameReadsBack(msg, pos, q.name);
  }

  lemma NameReadsBack(msg: seq<byte>, pos: nat, l: Layout)
    requires GoodName(msg, l) && At(msg, pos, NameBytes(l))
    ensures DecodeAt(msg, pos, 0) == Some(Decoded(Labels(l), pos + |NameBytes(l)|))
  {
    NameRoundTrip(msg, pos, l);
  }

  lemma {:induction false} QuestionsAreSkipped(msg: seq<byte>, pos: nat, qs: seq<Question>)
    requires GoodQuestions(msg, qs) && At(msg, pos, QuestionsBytes(qs))
    ensures SkipQuestions(msg, pos, |qs|) == Ok(pos + |QuestionsBytes(qs)|)
    decreases |qs|
  {
    hide QuestionBytes, NameBytes, GoodName, DecodeAt, At;
    if qs != [] {
      var q := qs[0];
      AtSplit(msg, pos, QuestionBytes(q), QuestionsBytes(qs[1..]));
      QuestionReadsBack(msg, pos, q);
      QuestionsAreSkipped(msg, pos + |QuestionBytes(q)|, qs[1..]);
    }
  }

  lemma {:induction false} AnswersReadBack(msg: seq<byte>, pos: nat, answers: seq<Answer>, rt: RecordType)
    requires GoodAnswers(msg, answers, rt) && At(msg, pos, AnswersBytes(answers))
    ensures ParseAnswers(msg, pos, |answers|, rt) == Ok(Expected(answers, rt))
    decreases |answers|
  {
    hide AnswerBytes, GoodAnswer, DecodeAt, At, HeadAt, RecordAt;
    if answers != [] {
      var a := answers[0];
      AtSplit(msg, pos, AnswerBytes(a), AnswersBytes(answers[1..]));
      AnswersReadBack(msg, pos + |AnswerBytes(a)|, answers[1..], rt);
      AnswerReadsBack(msg, pos, a, rt);
      AnswerStep(msg, pos, answers, rt);
    }
  }

  /** Everything the loop body reads of one answer. */
  ghost predicate ReadsAs(msg: seq<byte>, pos: nat, a: Answer, rt: RecordType) {
    var next := pos + |NameBytes(a.owner)|;
    var h := Head(RType(a.rdata), a.ttl, next + 10, |RDataBytes(a.rdata)|);
    && DecodeAt(msg, pos, 0) == Some(Decoded(Labels(a.owner), next))
    && HeadAt(msg, next) == Ok(h)
    && h.start + h.len == pos + |AnswerBytes(a)| <= |msg|
    && (RType(a.rdata) == Wanted(rt) ==>
          RecordAt(msg, rt, Join(Labels(a.owner)), a.ttl, h.start, h.len) == Ok(Meaning(a, rt)))
  }

  lemma AnswerReadsBack(msg: seq<byte>, pos: nat, a: Answer, rt: RecordType)
    requires GoodAnswer(msg, a, rt) && At(msg, pos, AnswerBytes(a))
    ensures ReadsAs(msg, pos, a, rt)
  {
    hide RDataBytes, HeadBytes, NameBytes, DecodeAt, HeadAt, RecordAt, IsRData;
    var next := pos + |NameBytes(a.owner)|;
    AtSplit(msg, pos, NameBytes(a.owner), HeadBytes(a) + RDataBytes(a.rdata));
    NameReadsBack(msg, pos, a.owner);
    HeadReadsBack(msg, next, a);
    if RType(a.rdata) == Wanted(rt) {
      RecordReadsBack(msg, next + 10, a, rt);
    }
  }

  lemma AnswerStep(msg: seq<byte>, pos: nat, answers: seq<Answer>, rt: RecordType)
    requires answers != [] && ReadsAs(msg, pos, answers[0], rt)
    requires ParseAnswers(msg, pos + |AnswerBytes(answers[0])|, |answers| - 1, rt) == Ok(Expected(answers[1..], rt))
    ensures ParseAnswers(msg, pos, |answers|, rt) == Ok(Expected(answers, rt))
  {
    hide RDataBytes, AnswerBytes, NameBytes, DecodeAt, HeadAt, RecordAt, Meaning;
    assert [] + Expected(answers[1..], rt) == Expected(answers[1..], rt);
  }

  lemma HeaderReadsBack(msg: seq<byte>, id: u16, flags: u16, qd: u16, an: u16, ns: u16, ar: u16)
    requires At(msg, 0, HeaderBytes(id, flags, qd, an, ns, ar))
    ensures |msg| >= HEADER
    ensures U16At(msg, 0) == id && U16At(msg, 2) == flags && U16At(msg, 4) == qd && U16At(msg, 6) == an
  {
    AtSplit(msg, 0, (U16Bytes(id) + U16Bytes(flags)) + (U16Bytes(qd) + U16Bytes(an)), U16Bytes(ns) + U16Bytes(ar));
    AtSplit(msg, 0, U16Bytes(id) + U16Bytes(flags), U16Bytes(qd) + U16Bytes(an));
    AtSplit(msg, 0, U16Bytes(id), U16Bytes(flags));
    AtSplit(msg, 4, U16Bytes(qd), U16Bytes(an));
    U16ReadsBack(msg, 0, id);
    U16ReadsBack(msg, 2, flags);
    U16ReadsBack(msg, 4, qd);
    U16ReadsBack(msg, 6, an);
  }

  /**
   Parsing a response to the right query, without an error code and with something in it,
   returns exactly the answers of the requested type, in order: names expanded through
   their pointers, TXT chunks rejoined, SRV targets read from the whole message.
   */
  lemma ParseReturnsTheAnswers(id: u16, flags: u16, qs: seq<Question>, answers: seq<Answer>,
                               ns: u16, ar: u16, tail: seq<byte>, rt: RecordType)
    requires |qs| < 0x1_0000 && |answers| < 0x1_0000 && (qs != [] || answers != []) && flags % 16 == 0
    requires var msg := MessageBytes(id, flags, qs, answers, ns, ar, tail);
             GoodQuestions(msg, qs) && GoodAnswers(msg, answers, rt)
    ensures Parse(MessageBytes(id, flags, qs, answers, ns, ar, tail), rt, id) == Ok(Expected(answers, rt))
  {
    hide MessageBytes, QuestionsBytes, AnswersBytes, GoodQuestions, GoodAnswers, Expected, U16At, At;
    var msg := MessageBytes(id, flags, qs, answers, ns, ar, tail);
    SectionsInPlace(id, flags, qs, answers, ns, ar, tail);
    QuestionsAreSkipped(msg, HEADER, qs);
    AnswersReadBack(msg, HEADER + |QuestionsBytes(qs)|, answers, rt);
  }

  lemma SectionsInPlace(id: u16, flags: u16, qs: seq<Question>, answers: seq<Answer>, ns: u16, ar: u16, tail: seq<byte>)
    requires |qs| < 0x1_0000 && |answers| < 0x1_0000
    ensures var msg := MessageBytes(id, flags, qs, answers, ns, ar, tail);
            && |msg| >= HEADER
            && U16At(msg, 0) == id && U16At(msg, 2) == flags && U16At(msg, 4) == |qs| && U16At(msg, 6) == |answers|
            && At(msg, HEADER, QuestionsBytes(qs))
            && At(msg, HEADER + |QuestionsBytes(qs)|, AnswersBytes(answers))
  {
    var msg := MessageBytes(id, flags, qs, answers, ns, ar, tail);
    var header := HeaderBytes(id, flags, |qs|, |answers|, ns, ar);
    assert At(msg, 0, msg);
    hide QuestionsBytes, AnswersBytes, HeaderBytes, At, U16At;
    AtSplit(msg, 0, header, QuestionsBytes(qs) + (AnswersBytes(answers) + tail));
    AtSplit(msg, HEADER, QuestionsBytes(qs), AnswersBytes(answers) + tail);
    AtSplit(msg, HEADER + |QuestionsBytes(qs)|, AnswersBytes(answers), tail);
    HeaderReadsBack(msg, id, flags, |qs|, |answers|, ns, ar);
  }

  /**
   The usual compressed response meets the conditions: one question with its name in full,
   every answer's owner a pointer back to it, SRV targets in full.
   */
  lemma PointersToTheQuestionAreGood(id: u16, flags: u16, labels: seq<Label>, qtype: u16, answers: seq<Answer>,
                                     ns: u16, ar: u16, tail: seq<byte>, rt: RecordType)
    requires |answers| < 0x1_0000 && flags % 16 == 0
    requires forall t | t in labels :: IsLabel(t)
    requires forall a | a in answers ::
               && a.owner == Pointer(HEADER, Literal(labels)) && IsRData(a.rdata)
               && (a.rdata.RSrv? ==> exists ts :: a.rdata.target == Literal(ts))
               && (a.rdata.ROther? ==> a.rdata.rtype != Wanted(rt))
    ensures var qs := [Question(Literal(labels), qtype, 1)];
            Parse(MessageBytes(id, flags, qs, answers, ns, ar, tail), rt, id) == Ok(Expected(answers, rt))
  {
    var qs := [Question(Literal(labels), qtype, 1)];
    var msg := MessageBytes(id, flags, qs, answers, ns, ar, tail);
    LiteralResolves(msg, labels);
    FirstNameIsLaid(id, flags, qs, answers, ns, ar, tail);
    forall a | a in answers ensures GoodAnswer(msg, a, rt) {
      if a.rdata.RSrv? {
        var ts :| a.rdata.target == Literal(ts);
        LiteralResolves(msg, ts);
      }
    }
    hide GoodAnswer, MessageBytes;
    ParseReturnsTheAnswers(id, flags, qs, answers, ns, ar, tail, rt);
  }

  lemma FirstNameIsLaid(id: u16, flags: u16, qs: seq<Question>, answers: seq<Answer>, ns: u16, ar: u16, tail: seq<byte>)
    requires 0 < |qs| < 0x1_0000 && |answers| < 0x1_0000
    requires GoodName(MessageBytes(id, flags, qs, answers, ns, ar, tail), qs[0].name)
    ensures Laid(MessageBytes(id, flags, qs, answers, ns, ar, tail), HEADER, qs[0].name)
    ensures |MessageBytes(id, flags, qs, answers, ns, ar, tail)| > HEADER
  {
    var msg := MessageBytes(id, flags, qs, answers, ns, ar, tail);
    var q := qs[0];
    hide MessageBytes, AnswersBytes, At;
    SectionsInPlace(id, flags, qs, answers, ns, ar, tail);
    AtSplit(msg, HEADER, QuestionBytes(q), QuestionsBytes(qs[1..]));
    AtSplit(msg, HEADER, NameBytes(q.name), U16Bytes(q.qtype) + U16Bytes(q.qclass));
    WrittenIsLaid(msg, HEADER, q.name);
  }

  // ---- The code's loops ----

  method JoinTxt(rdata: seq<byte>) returns (r: Option<seq<byte>>)
    ensures r == JoinChunks(rdata)
  {
    var c := new Cursor(rdata, 0);
    var out: seq<byte> := [];
    assert rdata[0..] == rdata;
    ChunkAppends([], [], JoinChunks(rdata));
    while c.pos < |rdata|
      invariant c.buf == rdata && c.pos <= |rdata|
      invariant JoinChunks(rdata) == match JoinChunks(rdata[c.pos..]) case None => None case Some(t) => Some(out + t)
      decreases |rdata| - c.pos
    {
      ghost var left := rdata[c.pos..];
      var len := c.ReadU8();
      var s := c.ReadBytes(len.value);
      if s == None {
        return None;
      }
      assert left[1 + len.value..] == rdata[c.pos..] && left[1..1 + len.value] == s.value;
      ChunkAppends(out, s.value, JoinChunks(rdata[c.pos..]));
      out := out + s.value;
    }
    assert rdata[c.pos..] == [] && out + [] == out;
    r := Some(out);
  }

  lemma ChunkAppends(out: seq<byte>, s: seq<byte>, rest: Option<seq<byte>>)
    ensures rest.Some? ==> out + (s + rest.value) == (out + s) + rest.value && [] + rest.value == rest.value
  {
    if rest.Some? {
      assert out + (s + rest.value) == (out + s) + rest.value;
    }
  }

  /** The typed record; `start` is where `rdata` lies in `msg`. */
  method RecordFromRData(rt: RecordType, name: seq<byte>, ttl: u32, rdata: seq<byte>, start: nat, msg: seq<byte>)
    returns (r: Result<Record>)
    requires start + |rdata| <= |msg| && rdata == msg[start..start + |rdata|]
    ensures r == RecordAt(msg, rt, name, ttl, start, |rdata|)
  {
    match rt {
      case A =>
        if |rdata| != 4 {
          return Err(BadA);
        }
        r := Ok(Record(TrimDots(name), A, ttl, V4(rdata)));
      case AAAA =>
        if |rdata| != 16 {
          return Err(BadAaaa);
        }
        r := Ok(Record(TrimDots(name), AAAA, ttl, V6(rdata)));
      case TXT =>
        var text := JoinTxt(rdata);
        if text == None {
          return Err(TxtTruncated);
        }
        r := Ok(Record(TrimDots(name), TXT, ttl, Text(text.value)));
      case SRV =>
        if |rdata| < 6 {
          return Err(SrvTooShort);
        }
        var target := DecodeName(msg, start + 6);
        if target == None {
          return Err(BadSrvTarget);
        }
        assert rdata[..6] == msg[start..start + 6];
        r := Ok(Record(TrimDots(name), SRV, ttl,
                       Service(U16At(rdata, 0), U16At(rdata, 2), U16At(rdata, 4), TrimDots(Join(target.value.labels)))));
      case _ =>
        r := Err(Unsupported);
    }
  }

  method SkipOneQuestion(c: Cursor) returns (e: Option<Error>)
    modifies c
    ensures e.Some? ==> forall n | n > 0 :: SkipQuestions(c.buf, old(c.pos), n) == Err(e.value)
    ensures e == None ==> forall n | n > 0 :: SkipQuestions(c.buf, old(c.pos), n) == SkipQuestions(c.buf, c.pos, n - 1)
  {
    var d := DecodeName(c.buf, c.pos);
    if d == None {
      return Some(BadQuestionName);
    }
    c.pos := d.value.next;
    var qtype := c.ReadU16();
    if qtype == None {
      return Some(Truncated);
    }
    var qclass := c.ReadU16();
    if qclass == None {
      return Some(Truncated);
    }
    return None;
  }

  method ReadHead(c: Cursor) returns (r: Result<Head>)
    modifies c
    ensures r == HeadAt(c.buf, old(c.pos))
    ensures r.Ok? ==> c.pos == r.value.start + r.value.len
  {
    var rtype := c.ReadU16();
    if rtype == None {
      return Err(Truncated);
    }
    var class_ := c.ReadU16();
    if class_ == None {
      return Err(Truncated);
    }
    var ttl := c.ReadU32();
    if ttl == None {
      return Err(Truncated);
    }
    var rdlen := c.ReadU16();
    if rdlen == None {
      return Err(Truncated);
    }
    var start := c.pos;
    var rdata := c.ReadBytes(rdlen.value);
    if rdata == None {
      return Err(RDataTruncated);
    }
    r := Ok(Head(rtype.value, ttl.value, start, rdlen.value));
  }

  method ParseWireResponse(msg: seq<byte>, rt: RecordType, id: u16) returns (r: Result<seq<Record>>)
    ensures r == Parse(msg, rt, id)
  {
    if |msg| < HEADER {
      return Err(TooShort);
    }
    var c := new Cursor(msg, 0);
    var got := c.ReadU16();
    if got.value != id {
      return Err(IdMismatch(got.value));
    }
    var flags := c.ReadU16();
    if flags.value % 16 != 0 {
      return Err(Rcode(flags.value % 16));
    }
    var qd := c.ReadU16();
    var an := c.ReadU16();
    var ns := c.ReadU16();
    var ar := c.ReadU16();
    if qd.value == 0 && an.value == 0 {
      return Err(NoSections);
    }
    for i := 0 to qd.value
      invariant c.buf == msg
      invariant SkipQuestions(msg, HEADER, qd.value) == SkipQuestions(msg, c.pos, qd.value - i)
    {
      var e := SkipOneQuestion(c);
      if e.Some? {
        return Err(e.value);
      }
    }
    r := ReadAnswers(c, an.value, rt);
  }

  /** The answers found so far, followed by what the rest of the section gives. */
  ghost predicate Gathered(whole: Result<seq<Record>>, records: seq<Record>, rest: Result<seq<Record>>) {
    whole == if rest.Ok? then Ok(records + rest.value) else rest
  }

  method ReadAnswers(c: Cursor, an: nat, rt: RecordType) returns (r: Result<seq<Record>>)
    modifies c
    ensures r == ParseAnswers(c.buf, old(c.pos), an, rt)
  {
    hide DecodeAt, HeadAt, RecordAt, Join;
    ghost var whole := ParseAnswers(c.buf, c.pos, an, rt);
    var records: seq<Record> := [];
    if whole.Ok? {
      assert [] + whole.value == whole.value;
    }
    for i := 0 to an
      invariant Gathered(whole, records, ParseAnswers(c.buf, c.pos, an - i, rt))
    {
      var name := DecodeName(c.buf, c.pos);
      if name == None {
        return Err(BadAnswerName);
      }
      c.pos := name.value.next;
      var h := ReadHead(c);
      if h.Err? {
        return Err(h.error);
      }
      if h.value.rtype != Wanted(rt) {
        continue;
      }
      var rec := RecordFromRData(rt, Join(name.value.labels), h.value.ttl,
                                 c.buf[h.value.start..h.value.start + h.value.len], h.value.start, c.buf);
      if rec.Err? {
        return Err(rec.error);
      }
      GatherOne(whole, records, rec.value, ParseAnswers(c.buf, c.pos, an - i - 1, rt));
      records := records + [rec.value];
    }
    assert records + [] == records;
    r := Ok(records);
  }

  lemma GatherOne(whole: Result<seq<Record>>, records: seq<Record>, rec: Record, rest: Result<seq<Record>>)
    requires Gathered(whole, records, if rest.Ok? then Ok([rec] + rest.value) else rest)
    ensures Gathered(whole, records + [rec], rest)
  {
    if rest.Ok? {
      assert records + ([rec] + rest.value) == (records + [rec]) + rest.value;
    }
  }
}
