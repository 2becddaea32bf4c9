/**
 Which byte strings dns/src/secure_resolver.rs accepts as responses, what it reads from them,
 and which error it gives for the others, said about the bytes alone (sections 4.1 and 3.2.2
 of RFC 1035 for the layout and the type numbers).
 */
module DnsReading {
  import opened Bytes
  import opened DnsName
  import opened DnsMessage

  function Two(msg: seq<byte>, i: nat): (n: nat)
    requires i + 2 <= |msg|
    ensures n < 0x1_0000
  {
    msg[i] as int * 256 + msg[i + 1] as int
  }

  function Four(msg: seq<byte>, i: nat): (n: nat)
    requires i + 4 <= |msg|
    ensures n < 0x1_0000_0000
  {
    Two(msg, i) * 0x1_0000 + Two(msg, i + 2)
  }

  /** The number an answer of this type carries; types that are never asked for get one that is not assigned. */
  predicate IsNumber(rt: RecordType, n: nat) {
    n == if rt == A then 1 else if rt == AAAA then 28 else if rt == TXT then 16 else if rt == SRV then 33 else 65535
  }

  ghost predicate NoName(msg: seq<byte>, pos: nat) {
    forall d :: !Spells(msg, pos, d)
  }

  /** `data` is the text of a TXT record: chunks behind their lengths. */
  ghost predicate IsText(data: seq<byte>, text: seq<byte>) {
    exists chunks: seq<seq<byte>> :: AreChunks(chunks, data, text)
  }

  ghost predicate NoText(data: seq<byte>) {
    forall text :: !IsText(data, text)
  }

  ghost predicate AreChunks(chunks: seq<seq<byte>>, data: seq<byte>, text: seq<byte>) {
    (forall c | c in chunks :: |c| < 256) && data == ChunkBytes(chunks) && text == Concat(chunks)
  }

  ghost predicate IsService(msg: seq<byte>, start: nat, d: Decoded, data: Data)
    requires start + 6 <= |msg|
  {
    && Spells(msg, start + 6, d)
    && data == Service(Two(msg, start), Two(msg, start + 2), Two(msg, start + 4), TrimDots(Join(d.labels)))
  }

  /** The `len` bytes at `start` hold `data`. */
  ghost predicate Holds(msg: seq<byte>, rt: RecordType, start: nat, len: nat, data: Data)
    requires start + len <= |msg|
  {
    match rt
    case A => len == 4 && data == V4(msg[start..start + len])
    case AAAA => len == 16 && data == V6(msg[start..start + len])
    case TXT => data.Text? && IsText(msg[start..start + len], data.text)
    case SRV => len >= 6 && exists d :: IsService(msg, start, d, data)
    case _ => false
  }

  ghost predicate HoldsSome(msg: seq<byte>, rt: RecordType, start: nat, len: nat)
    requires start + len <= |msg|
  {
    exists data :: Holds(msg, rt, start, len, data)
  }

  ghost predicate DataFails(msg: seq<byte>, rt: RecordType, start: nat, len: nat, e: Error)
    requires start + len <= |msg|
  {
    match rt
    case A => len != 4 && e == BadA
    case AAAA => len != 16 && e == BadAaaa
    case TXT => NoText(msg[start..start + len]) && e == TxtTruncated
    case SRV => if len < 6 then e == SrvTooShort else NoName(msg, start + 6) && e == BadSrvTarget
    case _ => e == Unsupported
  }

  // ---- The sections ----

  /** `n` questions stand at `pos` and end at `end`. */
  ghost predicate Questions(msg: seq<byte>, pos: nat, n: nat, end: nat)
    decreases n
  {
    if n == 0 then end == pos
    else exists d :: Spells(msg, pos, d) && d.next + 4 <= |msg| && Questions(msg, d.next + 4, n - 1, end)
  }

  ghost predicate QuestionsFail(msg: seq<byte>, pos: nat, n: nat, e: Error)
    decreases n
  {
    && n > 0
    && (|| (NoName(msg, pos) && e == BadQuestionName)
        || exists d :: Spells(msg, pos, d) && if d.next + 4 > |msg| then e == Truncated else QuestionsFail(msg, d.next + 4, n - 1, e))
  }

  /** The fixed part of an answer and its data fit behind its name. */
  predicate HasRoom(msg: seq<byte>, at: nat) {
    at + 10 <= |msg| && at + 10 + Two(msg, at + 8) <= |msg|
  }

  predicate HasType(msg: seq<byte>, at: nat, rt: RecordType)
    requires HasRoom(msg, at)
  {
    IsNumber(rt, Two(msg, at))
  }

  function After(msg: seq<byte>, at: nat): nat
    requires HasRoom(msg, at)
  {
    at + 10 + Two(msg, at + 8)
  }

  ghost predicate IsRecord(msg: seq<byte>, d: Decoded, rt: RecordType, r: Record)
    requires HasRoom(msg, d.next)
  {
    && r.name == TrimDots(Join(d.labels)) && r.rtype == rt && r.ttl == Four(msg, d.next + 4)
    && Holds(msg, rt, d.next + 10, Two(msg, d.next + 8), r.data)
  }

  /** `n` answers stand at `pos`, and those of the type are `records`, in order. */
  ghost predicate Answers(msg: seq<byte>, pos: nat, n: nat, rt: RecordType, records: seq<Record>)
    decreases n
  {
    if n == 0 then records == []
    else
      exists d ::
        && Spells(msg, pos, d) && HasRoom(msg, d.next)
        && if HasType(msg, d.next, rt)
           then records != [] && IsRecord(msg, d, rt, records[0]) && Answers(msg, After(msg, d.next), n - 1, rt, records[1..])
           else Answers(msg, After(msg, d.next), n - 1, rt, records)
  }

  ghost predicate AnswersFail(msg: seq<byte>, pos: nat, n: nat, rt: RecordType, e: Error)
    decreases n
  {
    && n > 0
    && (|| (NoName(msg, pos) && e == BadAnswerName)
        || exists d ::
             && Spells(msg, pos, d)
             && if d.next + 10 > |msg| then e == Truncated
                else if !HasRoom(msg, d.next) then e == RDataTruncated
                else
                  || (HasType(msg, d.next, rt) && DataFails(msg, rt, d.next + 10, Two(msg, d.next + 8), e))
                  || ((HasType(msg, d.next, rt) ==> HoldsSome(msg, rt, d.next + 10, Two(msg, d.next + 8)))
                      && AnswersFail(msg, After(msg, d.next), n - 1, rt, e)))
  }

  // ---- The whole message ----

  /** The header answers the query with this id, without an error code, and announces something. */
  predicate GoodHeader(msg: seq<byte>, id: u16) {
    |msg| >= 12 && msg[0] == id / 256 && msg[1] == id % 256 && msg[3] % 16 == 0 && msg[4..8] != [0, 0, 0, 0]
  }

  /** The first thing wrong with a header that is not good. */
  function HeaderError(msg: seq<byte>, id: u16): Error {
    if |msg| < 12 then TooShort
    else if msg[0] != id / 256 || msg[1] != id % 256 then IdMismatch(Two(msg, 0))
    else if msg[3] % 16 != 0 then Rcode(msg[3] % 16)
    else NoSections
  }

  ghost predicate Accepts(msg: seq<byte>, rt: RecordType, id: u16, records: seq<Record>) {
    && GoodHeader(msg, id)
    && exists at :: Questions(msg, 12, Two(msg, 4), at) && Answers(msg, at, Two(msg, 6), rt, records)
  }

  ghost predicate Refuses(msg: seq<byte>, rt: RecordType, id: u16, e: Error) {
    if !GoodHeader(msg, id) then e == HeaderError(msg, id)
    else
      || QuestionsFail(msg, 12, Two(msg, 4), e)
      || exists at :: Questions(msg, 12, Two(msg, 4), at) && AnswersFail(msg, at, Two(msg, 6), rt, e)
  }

  // ---- Names ----

  lemma NameIff(msg: seq<byte>, pos: nat)
    ensures forall d :: Spells(msg, pos, d) <==> DecodeAt(msg, pos, 0) == Some(d)
    ensures NoName(msg, pos) <==> DecodeAt(msg, pos, 0) == None
  {
    hide Spells, DecodeAt;
    forall d ensures Spells(msg, pos, d) <==> DecodeAt(msg, pos, 0) == Some(d) {
      DecodeIff(msg, pos, d);
    }
    if DecodeAt(msg, pos, 0).Some? {
      assert Spells(msg, pos, DecodeAt(msg, pos, 0).value);
    }
  }

  lemma NumberIff(rt: RecordType, n: nat)
    ensures IsNumber(rt, n) <==> n == Wanted(rt)
  {
  }

  lemma FourIsU32(msg: seq<byte>, i: nat)
    requires i + 4 <= |msg|
    ensures Four(msg, i) == U32At(msg, i)
  {
  }

  // ---- TXT data ----

  lemma {:induction false} ChunksAreJoined(chunks: seq<seq<byte>>)
    requires forall c | c in chunks :: |c| < 256
    ensures JoinChunks(ChunkBytes(chunks)) == Some(Concat(chunks))
  {
    if chunks != [] {
      var (c, rest) := (chunks[0], chunks[1..]);
      assert c in chunks;
      ChunksAreJoined(rest);
      var data := ChunkBytes(chunks);
      assert data == [|c|] + c + ChunkBytes(rest);
      assert data[1..1 + |c|] == c && data[1 + |c|..] == ChunkBytes(rest);
    }
  }

  lemma {:induction false} JoinedAreChunks(data: seq<byte>) returns (chunks: seq<seq<byte>>)
    requires JoinChunks(data).Some?
    ensures AreChunks(chunks, data, JoinChunks(data).value)
  {
    if data == [] {
      chunks := [];
    } else {
      var (n, tail) := (data[0], data[1 + data[0]..]);
      var c := data[1..1 + n];
      var rest := JoinedAreChunks(tail);
      chunks := [c] + rest;
      assert chunks[1..] == rest;
      assert data == [|c| % 256] + c + tail;
    }
  }

  lemma TextIff(data: seq<byte>)
    ensures forall text :: IsText(data, text) <==> JoinChunks(data) == Some(text)
    ensures NoText(data) <==> JoinChunks(data) == None
  {
    hide JoinChunks, ChunkBytes, Concat;
    forall text ensures IsText(data, text) <==> JoinChunks(data) == Some(text) {
      if chunks: seq<seq<byte>> :| AreChunks(chunks, data, text) {
        ChunksAreJoined(chunks);
      }
      if JoinChunks(data) == Some(text) {
        var chunks := JoinedAreChunks(data);
      }
    }
    if JoinChunks(data).Some? {
      assert IsText(data, JoinChunks(data).value);
    }
  }

  // ---- Records ----

  lemma RecordIff(msg: seq<byte>, rt: RecordType, name: seq<byte>, ttl: u32, start: nat, len: nat)
    requires start + len <= |msg|
    ensures
      var r := RecordAt(msg, rt, name, ttl, start, len);
      && (forall rec :: r == Ok(rec) <==>
            rec.name == TrimDots(name) && rec.rtype == rt && rec.ttl == ttl && Holds(msg, rt, start, len, rec.data))
      && (forall e :: r == Err(e) <==> DataFails(msg, rt, start, len, e))
      && (r.Ok? <==> HoldsSome(msg, rt, start, len))
  {
    hide Spells, DecodeAt, NoName, IsText, JoinChunks, TrimDots, Join;
    NameIff(msg, start + 6);
    TextIff(msg[start..start + len]);
    var r := RecordAt(msg, rt, name, ttl, start, len);
    if r.Ok? {
      if rt == SRV {
        assert IsService(msg, start, DecodeAt(msg, start + 6, 0).value, r.value.data);
      }
      assert Holds(msg, rt, start, len, r.value.data);
    }
  }

  // ---- Sections ----

  lemma {:induction false} QuestionsIff(msg: seq<byte>, pos: nat, n: nat)
    ensures forall at: nat :: SkipQuestions(msg, pos, n) == Ok(at) <==> Questions(msg, pos, n, at)
    ensures forall e :: SkipQuestions(msg, pos, n) == Err(e) <==> QuestionsFail(msg, pos, n, e)
    decreases n
  {
    hide Spells, DecodeAt, NoName;
    NameIff(msg, pos);
    if n > 0 && DecodeAt(msg, pos, 0).Some? && DecodeAt(msg, pos, 0).value.next + 4 <= |msg| {
      QuestionsIff(msg, DecodeAt(msg, pos, 0).value.next + 4, n - 1);
    }
  }

  /** The first answer, when its name, fixed part and data are there. */
  lemma HeadIff(msg: seq<byte>, at: nat)
    ensures HeadAt(msg, at).Ok? <==> HasRoom(msg, at)
    ensures at + 10 > |msg| ==> HeadAt(msg, at) == Err(Truncated)
    ensures at + 10 <= |msg| && !HasRoom(msg, at) ==> HeadAt(msg, at) == Err(RDataTruncated)
    ensures HasRoom(msg, at) ==>
              var h := HeadAt(msg, at).value;
              h.rtype == Two(msg, at) && h.ttl == Four(msg, at + 4) && h.start == at + 10 && h.len == Two(msg, at + 8)
  {
    if at + 10 <= |msg| {
      FourIsU32(msg, at + 4);
    }
  }

  lemma {:induction false} AnswersIff(msg: seq<byte>, pos: nat, n: nat, rt: RecordType)
    ensures forall records :: ParseAnswers(msg, pos, n, rt) == Ok(records) <==> Answers(msg, pos, n, rt, records)
    ensures forall e :: ParseAnswers(msg, pos, n, rt) == Err(e) <==> AnswersFail(msg, pos, n, rt, e)
    decreases n
  {
    hide Spells, DecodeAt, NoName, HeadAt, RecordAt;
    if n > 0 {
      NameIff(msg, pos);
      var name := DecodeAt(msg, pos, 0);
      if name.Some? {
        HeadIff(msg, name.value.next);
        if HasRoom(msg, name.value.next) {
          AnswersIff(msg, After(msg, name.value.next), n - 1, rt);
          FirstAnswerIff(msg, pos, n, rt, name.value);
        }
      }
    }
  }

  lemma ConsIff(r: Record, rest: seq<Record>, records: seq<Record>)
    ensures [r] + rest == records <==> records != [] && records[0] == r && records[1..] == rest
  {
    if records != [] && records[0] == r && records[1..] == rest {
      assert [r] + rest == records;
    }
  }

  /** What one answer says, when its name is `d` and `records` must come of it and the rest. */
  ghost predicate FirstSays(msg: seq<byte>, n: nat, rt: RecordType, records: seq<Record>, d: Decoded)
    requires n > 0 && HasRoom(msg, d.next)
  {
    if HasType(msg, d.next, rt)
    then records != [] && IsRecord(msg, d, rt, records[0]) && Answers(msg, After(msg, d.next), n - 1, rt, records[1..])
    else Answers(msg, After(msg, d.next), n - 1, rt, records)
  }

  lemma AnswersUnfold(msg: seq<byte>, pos: nat, n: nat, rt: RecordType, records: seq<Record>, d: Decoded)
    requires n > 0 && DecodeAt(msg, pos, 0) == Some(d) && HasRoom(msg, d.next)
    ensures Answers(msg, pos, n, rt, records) <==> FirstSays(msg, n, rt, records, d)
  {
    hide Spells, DecodeAt, NoName, HasType, IsRecord, After;
    NameIff(msg, pos);
  }

  lemma ParseUnfold(msg: seq<byte>, pos: nat, n: nat, rt: RecordType, d: Decoded)
    requires n > 0 && DecodeAt(msg, pos, 0) == Some(d) && HasRoom(msg, d.next)
    ensures
      var (h, rest) := (HeadAt(msg, d.next).value, ParseAnswers(msg, After(msg, d.next), n - 1, rt));
      var rec := RecordAt(msg, rt, Join(d.labels), h.ttl, h.start, h.len);
      ParseAnswers(msg, pos, n, rt) ==
        if !HasType(msg, d.next, rt) then rest
        else if rec.Err? then Err(rec.error) else if rest.Err? then rest else Ok([rec.value] + rest.value)
  {
    hide DecodeAt, HeadAt, RecordAt, Wanted;
    HeadIff(msg, d.next);
    NumberIff(rt, Two(msg, d.next));
  }

  /** One step of the section, when the rest of it is understood. */
  lemma FirstAnswerIff(msg: seq<byte>, pos: nat, n: nat, rt: RecordType, d: Decoded)
    requires n > 0 && DecodeAt(msg, pos, 0) == Some(d) && HasRoom(msg, d.next)
    requires
      var rest := ParseAnswers(msg, After(msg, d.next), n - 1, rt);
      && (forall records :: rest == Ok(records) <==> Answers(msg, After(msg, d.next), n - 1, rt, records))
      && (forall e :: rest == Err(e) <==> AnswersFail(msg, After(msg, d.next), n - 1, rt, e))
    ensures forall records :: ParseAnswers(msg, pos, n, rt) == Ok(records) <==> Answers(msg, pos, n, rt, records)
    ensures forall e :: ParseAnswers(msg, pos, n, rt) == Err(e) <==> AnswersFail(msg, pos, n, rt, e)
  {
    FirstRecordsIff(msg, pos, n, rt, d);
    FirstErrorIff(msg, pos, n, rt, d);
  }

  lemma FirstRecordsIff(msg: seq<byte>, pos: nat, n: nat, rt: RecordType, d: Decoded)
    requires n > 0 && DecodeAt(msg, pos, 0) == Some(d) && HasRoom(msg, d.next)
    requires
      var rest := ParseAnswers(msg, After(msg, d.next), n - 1, rt);
      forall records :: rest == Ok(records) <==> Answers(msg, After(msg, d.next), n - 1, rt, records)
    ensures forall records :: ParseAnswers(msg, pos, n, rt) == Ok(records) <==> Answers(msg, pos, n, rt, records)
  {
    hide DecodeAt, HeadAt, RecordAt, Holds, DataFails, HoldsSome, ParseAnswers, Answers, HasType;
    HeadIff(msg, d.next);
    var h := HeadAt(msg, d.next).value;
    RecordIff(msg, rt, Join(d.labels), h.ttl, h.start, h.len);
    ParseUnfold(msg, pos, n, rt, d);
    var rec := RecordAt(msg, rt, Join(d.labels), h.ttl, h.start, h.len);
    var rest := ParseAnswers(msg, After(msg, d.next), n - 1, rt);
    forall records ensures ParseAnswers(msg, pos, n, rt) == Ok(records) <==> Answers(msg, pos, n, rt, records) {
      AnswersUnfold(msg, pos, n, rt, records, d);
      if records != [] {
        assert IsRecord(msg, d, rt, records[0]) <==> rec == Ok(records[0]);
      }
      if !HasType(msg, d.next, rt) {
        assert FirstSays(msg, n, rt, records, d) <==> rest == Ok(records);
      } else if records == [] {
        assert !FirstSays(msg, n, rt, records, d);
      } else {
        var tail := records[1..];
        assert Answers(msg, After(msg, d.next), n - 1, rt, tail) <==> rest == Ok(tail);
        assert FirstSays(msg, n, rt, records, d) <==> rec == Ok(records[0]) && rest == Ok(tail);
        if rec.Ok? && rest.Ok? {
          ConsIff(rec.value, rest.value, records);
        }
      }
    }
  }

  lemma FirstErrorIff(msg: seq<byte>, pos: nat, n: nat, rt: RecordType, d: Decoded)
    requires n > 0 && DecodeAt(msg, pos, 0) == Some(d) && HasRoom(msg, d.next)
    requires
      var rest := ParseAnswers(msg, After(msg, d.next), n - 1, rt);
      forall e :: rest == Err(e) <==> AnswersFail(msg, After(msg, d.next), n - 1, rt, e)
    ensures forall e :: ParseAnswers(msg, pos, n, rt) == Err(e) <==> AnswersFail(msg, pos, n, rt, e)
  {
    hide Spells, DecodeAt, NoName, HeadAt, RecordAt, Holds, DataFails, HoldsSome, ParseAnswers, HasType;
    NameIff(msg, pos);
    HeadIff(msg, d.next);
    var h := HeadAt(msg, d.next).value;
    RecordIff(msg, rt, Join(d.labels), h.ttl, h.start, h.len);
    ParseUnfold(msg, pos, n, rt, d);
    assert Spells(msg, pos, d);
  }

  // ---- The theorem ----

  lemma HeaderIff(msg: seq<byte>, id: u16)
    requires |msg| >= 12
    ensures U16At(msg, 0) == Two(msg, 0) && U16At(msg, 4) == Two(msg, 4) && U16At(msg, 6) == Two(msg, 6)
    ensures U16At(msg, 0) == id <==> msg[0] == id / 256 && msg[1] == id % 256
    ensures U16At(msg, 2) % 16 == msg[3] % 16
    ensures U16At(msg, 4) == 0 && U16At(msg, 6) == 0 <==> msg[4..8] == [0, 0, 0, 0]
  {
    assert msg[4..8] == [msg[4], msg[5], msg[6], msg[7]];
  }

  /**
   For arbitrary bytes, every type and every id: what is accepted, with which records, and
   what is refused, with which error.
   */
  lemma ParseIff(msg: seq<byte>, rt: RecordType, id: u16)
    ensures forall records :: Parse(msg, rt, id) == Ok(records) <==> Accepts(msg, rt, id, records)
    ensures forall e :: Parse(msg, rt, id) == Err(e) <==> Refuses(msg, rt, id, e)
  {
    hide U16At, Two, SkipQuestions, ParseAnswers, Questions, QuestionsFail, Answers, AnswersFail;
    if |msg| >= 12 {
      HeaderIff(msg, id);
      if GoodHeader(msg, id) {
        QuestionsIff(msg, 12, Two(msg, 4));
        var at := SkipQuestions(msg, 12, Two(msg, 4));
        if at.Ok? {
          AnswersIff(msg, at.value, Two(msg, 6), rt);
          assert Questions(msg, 12, Two(msg, 4), at.value);
        }
      }
    }
  }

  /** Whatever follows a header that is not good, its first error is the answer. */
  lemma BadHeaderIsRefused(msg: seq<byte>, rt: RecordType, id: u16)
    requires !GoodHeader(msg, id)
    ensures Parse(msg, rt, id) == Err(HeaderError(msg, id))
  {
    hide Parse, GoodHeader, HeaderError;
    ParseIff(msg, rt, id);
    assert Refuses(msg, rt, id, HeaderError(msg, id));
  }

  /** A name error, asked for under another id, is refused for the id, and under its own for the code. */
  lemma NameErrorIsRefused(msg: seq<byte>, rt: RecordType)
    requires |msg| >= 12 && msg[0] == 0 && msg[1] == 1 && msg[2] == 0x81 && msg[3] == 0x83
    ensures Parse(msg, rt, 2) == Err(IdMismatch(1)) && Parse(msg, rt, 1) == Err(Rcode(3))
  {
    hide Parse;
    BadHeaderIsRefused(msg, rt, 2);
    BadHeaderIsRefused(msg, rt, 1);
  }
}
