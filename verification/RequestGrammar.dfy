/**
 A grammar of requests that does not mention the parser, and the proof that the
 parser accepts exactly the printed forms of the grammar's requests.

 The numbers of the protocol are written out: a grammar that took them from the program
 could not tell whether the program has them right.
 */
module RequestGrammar {
  import opened Bits
  import opened Utils
  import opened Headers
  import opened Protocol

  /** What a client can ask for. Reserved words and bits are part of a request: they may hold anything. */
  datatype Command =
    | GetIdCode
    | GetChipId
    | GetDeviceIdentity
    | SigmaTeardown(reserved: uint32, sessionId: uint32)
    | GetAttestationCertificate(request: uint8, unused: seq<uint8>)
    | CreateAttestationSubKey(reserved: uint32, data: seq<uint8>)
    | GetMeasurement(reserved: uint32, data: seq<uint8>)
    | Mctp(data: seq<uint8>)
    | Unknown(number: uint16, data: seq<uint8>)

  datatype Request = Request(client: uint8, id: uint8, res1: uint8, res2: uint8, command: Command)

  predicate KnownCode(code: int) {
    code in {0x10, 0x12, 0xd5, 0x181, 0x182, 0x183, 0x194, 0x500}
  }

  function Code(c: Command): uint16 {
    match c
    case GetIdCode => 0x10
    case GetChipId => 0x12
    case GetDeviceIdentity => 0x500
    case SigmaTeardown(_, _) => 0xd5
    case GetAttestationCertificate(_, _) => 0x181
    case CreateAttestationSubKey(_, _) => 0x182
    case GetMeasurement(_, _) => 0x183
    case Mctp(_) => 0x194
    case Unknown(number, _) => number
  }

  /** 0xb852e2a4, least significant byte first. */
  const TEARDOWN_MAGIC: seq<uint8> := [0xa4, 0xe2, 0x52, 0xb8]

  /** The words that the reserved word, where there is one, is followed by. */
  function Payload(c: Command): seq<uint8> {
    match c
    case GetIdCode => []
    case GetChipId => []
    case GetDeviceIdentity => []
    case SigmaTeardown(_, sessionId) => TEARDOWN_MAGIC + Bytes(sessionId)
    case GetAttestationCertificate(request, unused) => [request] + unused
    case CreateAttestationSubKey(_, data) => data
    case GetMeasurement(_, data) => data
    case Mctp(data) => data
    case Unknown(_, data) => data
  }

  function Body(c: Command): seq<uint8> {
    match c
    case SigmaTeardown(reserved, _) => Bytes(reserved) + Payload(c)
    case CreateAttestationSubKey(reserved, _) => Bytes(reserved) + Payload(c)
    case GetMeasurement(reserved, _) => Bytes(reserved) + Payload(c)
    case _ => Payload(c)
  }

  predicate WellFormed(r: Request) {
    && r.client < 16 && r.id < 16 && r.res1 < 2 && r.res2 < 2
    && |Payload(r.command)| % 4 == 0
    && |Body(r.command)| / 4 < 2048
    && (r.command.GetAttestationCertificate? ==> |r.command.unused| == 3)
    && (r.command.Unknown? ==> r.command.number < 2048 && !KnownCode(r.command.number))
  }

  function RequestHeader(r: Request): Header
    requires WellFormed(r)
  {
    Header(r.client, r.id, r.res1, |Body(r.command)| / 4, r.res2, Code(r.command))
  }

  /** The bytes a client sends for a request. */
  function Print(r: Request): seq<uint8>
    requires WellFormed(r)
  {
    Bytes(Layout(RequestHeader(r))) + Body(r.command)
  }

  /** The command with a given code, read off the bytes after the header. */
  function ReadCommand(code: uint16, body: seq<uint8>): Command
    requires code == 0xd5 ==> |body| == 12
    requires code == 0x181 ==> |body| == 4
    requires code == 0x182 || code == 0x183 ==> |body| >= 4
  {
    if code == 0x10 then GetIdCode
    else if code == 0x12 then GetChipId
    else if code == 0x500 then GetDeviceIdentity
    else if code == 0xd5 then SigmaTeardown(Word(body, 0), Word(body, 8))
    else if code == 0x181 then GetAttestationCertificate(body[0], body[1..])
    else if code == 0x182 then CreateAttestationSubKey(Word(body, 0), body[4..])
    else if code == 0x183 then GetMeasurement(Word(body, 0), body[4..])
    else if code == 0x194 then Mctp(body)
    else Unknown(code, body)
  }

  predicate Parses(message: seq<uint8>) { Parsed(FRESH_PROTOCOL, message).0 }

  /** The request a message stands for. */
  function Read(message: seq<uint8>): Request
    requires Parses(message)
  {
    var h := FieldsAt(Word(message, 0));
    Request(h.client, h.id, h.res1, h.res2, ReadCommand(h.code, message[HEADER_SIZE..]))
  }

  /** The header is read back from in front of any bytes, reduced to its widths. */
  lemma HeaderOfPrinted(h: Header, body: seq<uint8>)
    ensures FieldsAt(Word(Bytes(Layout(h)) + body, 0)) == Narrow(h)
    ensures (Bytes(Layout(h)) + body)[HEADER_SIZE..] == body
  {
    assert [] + Bytes(Layout(h)) + body == Bytes(Layout(h)) + body;
    WordInContext([], Layout(h), body);
    UnpackPack(h);
  }

  lemma NarrowRequestHeader(r: Request)
    requires WellFormed(r)
    ensures Narrow(RequestHeader(r)) == RequestHeader(r)
  {
  }

  lemma PrintedParts(r: Request)
    requires WellFormed(r)
    ensures |Print(r)| == HEADER_SIZE + |Body(r.command)|
    ensures FieldsAt(Word(Print(r), 0)) == RequestHeader(r)
    ensures Print(r)[HEADER_SIZE..] == Body(r.command)
  {
    NarrowRequestHeader(r);
    HeaderOfPrinted(RequestHeader(r), Body(r.command));
  }

  /** A printed request, byte by byte: the header fields in bytes 0 to 3, then the body. */
  lemma RequestByBytes(r: Request)
    requires WellFormed(r)
    ensures |Print(r)| == 4 + |Body(r.command)| && Print(r)[4..] == Body(r.command)
    ensures HeaderOf(Print(r)) == Header(r.client, r.id, r.res1, |Body(r.command)| / 4, r.res2, Code(r.command))
  {
    PrintedParts(r);
    HeaderByBytes(Print(r));
  }

  /** The word the parser compares with is the magic, byte by byte. */
  lemma MagicByBytes(b: seq<uint8>, offset: nat)
    requires offset + 4 <= |b|
    ensures Word(b, offset) == SIGMA_TEARDOWN_MAGIC <==> b[offset..offset + 4] == TEARDOWN_MAGIC
    ensures Bytes(SIGMA_TEARDOWN_MAGIC) == TEARDOWN_MAGIC
  {
    BytesOfWord(b, offset);
    WordByBytes(b, offset, SIGMA_TEARDOWN_MAGIC);
  }

  lemma ParseBody(q: ProtocolState, message: seq<uint8>, r: Request)
    requires WellFormed(r)
    requires |message| == HEADER_SIZE + |Body(r.command)| && message[HEADER_SIZE..] == Body(r.command)
    requires q.header.code == Code(r.command) && q.header.length == |Body(r.command)| / WORD_SIZE
    ensures ParsedAfterHeader(q, message) == (true, ProtocolState(q.header, Payload(r.command), NO_ERROR))
  {
    hide Word, Bytes;
    assert message[PayloadOffset(Code(r.command))..] == Payload(r.command);
    if r.command.SigmaTeardown? {
      assert Payload(r.command)[0..4] == TEARDOWN_MAGIC;
      MagicByBytes(Payload(r.command), 0);
    }
  }

  /**
   Completeness: printing any well-formed request and parsing it succeeds, whatever the
   protocol object held before, and leaves the header and the payload of the request.
   */
  lemma ParsePrinted(p: ProtocolState, r: Request)
    requires WellFormed(r)
    ensures Parsed(p, Print(r)) == (true, ProtocolState(RequestHeader(r), Payload(r.command), NO_ERROR))
  {
    PrintedParts(r);
    ParseBody(p.(header := RequestHeader(r)), Print(r), r);
  }

  /** Reading a printed request gives the request back: no two requests print alike. */
  lemma ReadPrinted(r: Request)
    requires WellFormed(r)
    ensures Parses(Print(r)) && Read(Print(r)) == r
  {
    ParsePrinted(FRESH_PROTOCOL, r);
    PrintedParts(r);
    CommandReadBack(r.command);
  }

  lemma TeardownWords(reserved: uint32, sessionId: uint32)
    ensures var body := Bytes(reserved) + (TEARDOWN_MAGIC + Bytes(sessionId));
            |body| == 12 && Word(body, 0) == reserved && Word(body, 8) == sessionId
  {
    hide Word, Bytes;
    var body := Bytes(reserved) + (TEARDOWN_MAGIC + Bytes(sessionId));
    WordInContext([], reserved, TEARDOWN_MAGIC + Bytes(sessionId));
    assert body == [] + Bytes(reserved) + (TEARDOWN_MAGIC + Bytes(sessionId));
    WordInContext(Bytes(reserved) + TEARDOWN_MAGIC, sessionId, []);
    assert body == Bytes(reserved) + TEARDOWN_MAGIC + Bytes(sessionId) + [];
  }

  lemma CommandReadBack(c: Command)
    requires c.GetAttestationCertificate? ==> |c.unused| == 3
    requires c.Unknown? ==> !KnownCode(c.number)
    ensures ReadCommand(Code(c), Body(c)) == c
  {
    hide Word, Bytes;
    var body := Body(c);
    match c
    case SigmaTeardown(reserved, sessionId) => TeardownWords(reserved, sessionId);
    case CreateAttestationSubKey(reserved, data) =>
      WordInContext([], reserved, data);
      assert body == [] + Bytes(reserved) + data;
    case GetMeasurement(reserved, data) =>
      WordInContext([], reserved, data);
      assert body == [] + Bytes(reserved) + data;
    case _ =>
  }

  /** Soundness: a message the parser accepts is the printed form of a well-formed request. */
  lemma PrintRead(message: seq<uint8>)
    requires Parses(message)
    ensures WellFormed(Read(message)) && Print(Read(message)) == message
  {
    var h := FieldsAt(Word(message, 0));
    HeaderFits(Word(message, 0));
    PackUnpack(Word(message, 0));
    BytesOfWord(message, 0);
    assert message == message[0..4] + message[HEADER_SIZE..];
    AcceptedBody(FRESH_PROTOCOL.(header := h), message);
  }

  lemma AcceptedBody(q: ProtocolState, message: seq<uint8>)
    requires |message| >= HEADER_SIZE && ParsedAfterHeader(q, message).0
    requires q.header.client < 16 && q.header.id < 16 && q.header.res1 < 2 && q.header.length < 2048
              && q.header.res2 < 2 && q.header.code < 2048
    ensures var body := message[HEADER_SIZE..];
            && (HasReservedWord(q.header.code) ==> |body| >= WORD_SIZE)
            && (q.header.code == SIGMA_TEARDOWN ==> |body| == 12)
            && (q.header.code == GET_ATTESTATION_CERTIFICATE ==> |body| == 4)
            && var command := ReadCommand(q.header.code, body);
               var r := Request(q.header.client, q.header.id, q.header.res1, q.header.res2, command);
               WellFormed(r) && RequestHeader(r) == q.header && Body(r.command) == body
  {
    hide Word, Bytes;
    var body := message[HEADER_SIZE..];
    if q.header.code == SIGMA_TEARDOWN {
      assert message[HEADER_SIZE..] == message[HEADER_SIZE..|message|] && message[8..] == message[8..|message|];
      WordInSlice(message, HEADER_SIZE, |message|, 4);
      WordInSlice(message, 8, |message|, 0);
    }
    ReadBody(q.header.code, body);
  }

  lemma HeaderFits(w: uint32)
    ensures var h := FieldsAt(w);
            h.client < 16 && h.id < 16 && h.res1 < 2 && h.length < 2048 && h.res2 < 2 && h.code < 2048
  {
    Quotients(w);
  }

  /** The bytes after the header are those of the command read from them. */
  lemma ReadBody(code: uint16, body: seq<uint8>)
    requires HasReservedWord(code) ==> |body| >= WORD_SIZE
    requires code == SIGMA_TEARDOWN ==> |body| == 12 && Word(body, 4) == SIGMA_TEARDOWN_MAGIC
    requires code == GET_ATTESTATION_CERTIFICATE ==> |body| == 4
    requires code == GET_ID_CODE || code == GET_CHIP_ID || code == GET_DEVICE_IDENTITY ==> body == []
    ensures Body(ReadCommand(code, body)) == body && Code(ReadCommand(code, body)) == code
  {
    if HasReservedWord(code) {
      BytesOfWord(body, 0);
      assert body == body[0..4] + body[4..];
      if code == SIGMA_TEARDOWN {
        BytesOfWord(body, 4);
        BytesOfWord(body, 8);
        assert body[4..] == body[4..8] + body[8..12];
      }
    }
  }

  /** The language of the parser is exactly the grammar. */
  lemma AcceptedIffPrinted(p: ProtocolState, message: seq<uint8>)
    ensures Parsed(p, message).0 <==> exists r :: WellFormed(r) && Print(r) == message
  {
    if Parsed(p, message).0 {
      assert Parses(message);
      PrintRead(message);
    }
    if r :| WellFormed(r) && Print(r) == message {
      ParsePrinted(p, r);
    }
  }

  /** A sixteen-byte teardown request, well framed but with another magic word. */
  predicate WrongMagic(message: seq<uint8>) {
    && |message| == 16
    && HeaderOf(message).code == 0xd5 && HeaderOf(message).length == 3
    && message[8..12] != TEARDOWN_MAGIC
  }

  /** The error code of every parse, exactly. */
  lemma ErrorOfParse(p: ProtocolState, message: seq<uint8>)
    ensures Parsed(p, message).1.error ==
              if Parsed(p, message).0 then 0x00
              else if WrongMagic(message) then 0x80
              else 0x04
  {
    hide FieldsAt, HeaderOf, Word;
    if |message| >= 4 {
      HeaderByBytes(message);
    }
    if |message| == 16 {
      WordInSlice(message, 8, 16, 0);
      assert message[8..16] == message[8..];
      MagicByBytes(message, 8);
    }
  }

  /**
   The first word of a message fixes its length: an accepted message that is cut short, or
   that has anything appended, is rejected.
   */
  lemma CutOrExtendedRejected(message: seq<uint8>, n: nat, tail: seq<uint8>)
    requires Parses(message)
    ensures n < |message| ==> !Parses(message[..n])
    ensures tail != [] ==> !Parses(message + tail)
  {
    hide FieldsAt;
    if HEADER_SIZE <= n < |message| {
      WordInSlice(message, 0, n, 0);
      assert message[..n] == message[0..n];
    }
    WordInSlice(message + tail, 0, |message|, 0);
    assert (message + tail)[0..|message|] == message;
  }

  /** The largest message the parser accepts; every accepted payload is made of whole words. */
  lemma AcceptedSize(p: ProtocolState, message: seq<uint8>)
    requires Parsed(p, message).0
    ensures HEADER_SIZE <= |message| <= 8192
    ensures |Parsed(p, message).1.payload| <= 8188 && |Parsed(p, message).1.payload| % WORD_SIZE == 0
  {
    var h := FieldsAt(Word(message, 0));
    HeaderFits(Word(message, 0));
    PayloadSize(p.(header := h), message);
  }

  lemma PayloadSize(q: ProtocolState, message: seq<uint8>)
    requires |message| >= HEADER_SIZE && ParsedAfterHeader(q, message).0 && q.header.length < 2048
    ensures |message| <= 8192
    ensures |ParsedAfterHeader(q, message).1.payload| <= 8188
    ensures |ParsedAfterHeader(q, message).1.payload| % WORD_SIZE == 0
  {
  }
}
