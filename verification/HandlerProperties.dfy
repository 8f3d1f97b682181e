/**
 What clients and the driver can rely on, for every message and every driver outcome.
 */
module HandlerProperties {
  import opened Bits
  import opened Utils
  import opened Headers
  import opened Protocol
  import opened RequestGrammar
  import opened Kernels
  import opened FcsCommunication
  import opened MessageHandler

  /** The driver call a command stands for, with every size as it is. */
  function ExpectedCall(c: Command): Option<DriverRequest>
    requires |Payload(c)| < 0x1_0000
  {
    match c
    case GetIdCode => Some(Mailbox(0x10, 0, [], 0, 4092))
    case GetDeviceIdentity => Some(Mailbox(0x500, 0, [], 0, 4092))
    case Mctp(data) => Some(Mailbox(0x194, 0, data, |data|, 4092))
    case GetChipId => Some(ChipId)
    case SigmaTeardown(_, sessionId) => Some(Teardown(true, sessionId))
    case GetAttestationCertificate(request, _) => Some(Certificate(request, 4096))
    case CreateAttestationSubKey(_, data) => Some(Subkey(0, data, |data|, 820))
    case GetMeasurement(_, data) => Some(Measurement(0, data, |data|, 4092))
    case Unknown(_, _) => None
  }

  lemma SmallPayload(r: Request)
    requires WellFormed(r)
    ensures |Payload(r.command)| <= 8188
  {
  }

  /** A parsed state that stands for a command. */
  predicate Holds(p: ProtocolState, c: Command) {
    && p.header.code == Code(c) && p.payload == Payload(c)
    && SizeCorrect(p.header.code, p.payload) && |p.payload| <= 8188
    && (c.Unknown? ==> !KnownCode(c.number))
  }

  lemma HandlePrinted(r: Request, o: Outcome) returns (p: ProtocolState)
    requires WellFormed(r)
    ensures p.header.client == r.client && p.header.id == r.id && r.client < 16 && r.id < 16
    ensures Holds(p, r.command) && Handle(Print(r), o) == Dispatched(p, o)
  {
    p := ProtocolState(RequestHeader(r), Payload(r.command), NO_ERROR);
    SmallPayload(r);
    ParsePrinted(FRESH_PROTOCOL, r);
    ParsedSize(FRESH_PROTOCOL, Print(r));
  }

  lemma DispatchedCall(p: ProtocolState, c: Command, o: Outcome)
    requires Holds(p, c)
    ensures Dispatched(p, o).call == ExpectedCall(c)
  {
    if c.SigmaTeardown? {
      WordInContext(Bytes(SIGMA_TEARDOWN_MAGIC), c.sessionId, []);
      assert Payload(c) == Bytes(SIGMA_TEARDOWN_MAGIC) + Bytes(c.sessionId) + [];
    }
  }

  /** A printed request makes exactly the call it stands for; no size is lost in a narrower field. */
  lemma CallOfRequest(r: Request, o: Outcome)
    requires WellFormed(r)
    ensures |Payload(r.command)| < 0x1_0000
    ensures Handle(Print(r), o).call == ExpectedCall(r.command)
  {
    var p := HandlePrinted(r, o);
    DispatchedCall(p, r.command, o);
  }

  /** Any message at all: accepted ones make the call of the request they print, rejected ones make none. */
  lemma CallOfMessage(message: seq<uint8>, o: Outcome)
    ensures !Parses(message) ==> Handle(message, o).call == None
    ensures Parses(message) ==>
              |Payload(Read(message).command)| < 0x1_0000
                  && Handle(message, o).call == ExpectedCall(Read(message).command)
  {
    if Parses(message) {
      PrintRead(message);
      CallOfRequest(Read(message), o);
    }
  }

  /** Session id and certificate request by their place in the message. */
  lemma CallArguments(message: seq<uint8>, o: Outcome)
    requires Parses(message)
    ensures |message| >= 4
    ensures HeaderOf(message).code == 0xd5 ==>
              && |message| == 16 && Handle(message, o).call.Some?
              && Handle(message, o).call.value.Teardown? && Handle(message, o).call.value.teardown
              && LittleEndianAt(message, 12, Handle(message, o).call.value.sid)
    ensures HeaderOf(message).code == 0x181 ==>
              && |message| == 8 && Handle(message, o).call == Some(Certificate(message[4], 4096))
  {
    hide LittleEndianAt;
    CallOfMessage(message, o);
    HeaderByBytes(message);
    if HeaderOf(message).code == 0xd5 {
      assert Word(message[HEADER_SIZE..], 8) == Word(message, 12);
      WordByBytes(message, 12, Word(message, 12));
    }
  }

  /** The header a response has to answer: that of the message, or zeros when there is none. */
  function RequestHeaderOf(message: seq<uint8>): Header {
    if |message| < 4 then Header(0, 0, 0, 0, 0, 0) else HeaderOf(message)
  }

  /** A response whose own header describes it, addressed to the sender of the message. */
  predicate WellFramed(message: seq<uint8>, response: seq<uint8>) {
    && 4 <= |response| <= 4100
    && var h := HeaderOf(response);
       && |response| == 4 + 4 * h.length as int
       && h.res1 == 0 && h.res2 == 0
       && h.client == RequestHeaderOf(message).client && h.id == RequestHeaderOf(message).id
  }

  /** The header of a response, as the client reads it. */
  function ReadHeader(request: Header, payload: seq<uint8>, returnCode: int): Header
    requires |payload| <= 4 * 2047
  {
    if |payload| % WORD_SIZE == 0
    then Header(request.client, request.id, 0, |payload| / WORD_SIZE, 0, returnCode % 2048)
    else Header(request.client, request.id, 0, 0, 0, 0x01)
  }

  /**
   A response reads back as the header it was made from, its code reduced to 11 bits,
   followed by the payload if that is made of whole words.
   */
  lemma ResponseReadsBack(request: Header, payload: seq<uint8>, returnCode: int)
    requires request.client < 16 && request.id < 16 && |payload| <= 4 * 2047
    ensures var response := Response(request, payload, returnCode);
            var body := if |payload| % WORD_SIZE == 0 then payload else [];
            && |response| == 4 + |body|
            && response[4..] == body
            && FieldsAt(Word(response, 0)) == HeaderOf(response) == ReadHeader(request, payload, returnCode)
  {
    hide HeaderOf, FieldsAt, Word, Bytes, Layout, Narrow, ResponseHeader;
    HeaderByBytes(Response(request, payload, returnCode));
    if |payload| % WORD_SIZE == 0 {
      NarrowResponse(request, |payload| / WORD_SIZE, returnCode);
      HeaderOfPrinted(ResponseHeader(request, |payload| / WORD_SIZE, returnCode), payload);
    } else {
      NarrowResponse(request, 0, GENERIC_ERROR);
      HeaderOfPrinted(ResponseHeader(request, 0, GENERIC_ERROR), []);
      var bare := Response(request, payload, returnCode);
      assert bare + [] == bare;
    }
  }

  lemma NarrowResponse(request: Header, words: nat, returnCode: int)
    requires request.client < 16 && request.id < 16 && words < 2048
    ensures Narrow(ResponseHeader(request, words, returnCode))
         == Header(request.client, request.id, 0, words, 0, returnCode % 2048)
  {
    TwiceReduced(returnCode);
  }

  lemma TwiceReduced(x: int)
    ensures x % 0x1_0000 % 2048 == x % 2048
  {
    var q := x / 0x1_0000;
    var r := x % 0x1_0000;
    ModUnique(x, 2048, q * 32 + r / 2048, r % 2048);
  }

  /**
   Status visibility. The client reads the return code modulo 2048 (two's complement),
   so it reads the code itself exactly for codes 0 to 2047, and confuses two codes
   exactly when they agree modulo 2048.
   */
  lemma StatusVisible(request: Header, payload: seq<uint8>, status: int32, other: int32)
    requires request.client < 16 && request.id < 16
    requires |payload| <= 4 * 2047 && |payload| % WORD_SIZE == 0
    ensures |Response(request, payload, status)| >= 4
    ensures HeaderOf(Response(request, payload, status)).code == status <==> 0 <= status < 2048
    ensures Response(request, payload, status) == Response(request, payload, other) <==> status % 2048 == other % 2048
  {
    ResponseReadsBack(request, payload, status);
    ResponseReadsBack(request, payload, other);
    VisibleCode(status);
    if status % 2048 == other % 2048 {
      LayoutOfCode(request, |payload| / WORD_SIZE, status, other);
    }
  }

  lemma VisibleCode(status: int)
    ensures status % 2048 == status <==> 0 <= status < 2048
  {
  }

  lemma LayoutOfCode(request: Header, words: nat, status: int32, other: int32)
    requires status % 2048 == other % 2048
    ensures Layout(ResponseHeader(request, words, status)) == Layout(ResponseHeader(request, words, other))
  {
    TwiceReduced(status);
    TwiceReduced(other);
  }

  lemma AnswerSize(o: Outcome, message: seq<uint8>)
    requires Parses(message)
    ensures var h := FieldsAt(Word(message, 0));
            Handle(message, o).response != [] ==>
              exists payload, rc :: |payload| <= 4096 && Handle(message, o).response == Response(h, payload, rc)
  {
    var (_, p) := Parsed(FRESH_PROTOCOL, message);
    ParsedSize(FRESH_PROTOCOL, message);
    var code := p.header.code;
    if code == GET_CHIP_ID {
      Witness(p.header, ChipIdAnswer(o.reply));
    } else if code == SIGMA_TEARDOWN {
      Witness(p.header, TeardownAnswer(o.reply));
    } else if code == CREATE_ATTESTATION_SUB_KEY {
      Witness(p.header, BufferAnswer([], ATTESTATION_SUBKEY_RSP_MAX_SZ, o.reply, Claimed32(o.reply)));
    } else if code == GET_MEASUREMENT {
      Witness(p.header, BufferAnswer([], ATTESTATION_MEASUREMENT_RSP_MAX_SZ, o.reply, Claimed32(o.reply)));
    } else if code == GET_ATTESTATION_CERTIFICATE {
      Witness(p.header, BufferAnswer([], ATTESTATION_CERTIFICATE_RSP_MAX_SZ, o.reply, Claimed32(o.reply)));
    } else if code == MCTP || code == GET_ID_CODE || code == GET_DEVICE_IDENTITY {
      Witness(p.header, BufferAnswer([], MBOX_SEND_RSP_MAX_SZ, o.reply, Claimed16(o.reply)));
    }
  }

  lemma Witness(h: Header, answer: Answer)
    requires answer.Answered? ==> |answer.payload| <= 4096
    ensures Finished(h, answer) != [] ==>
              exists payload, rc :: |payload| <= 4096 && Finished(h, answer) == Response(h, payload, rc)
  {
  }

  /** Every response to any message, accepted or not, is well framed. */
  lemma EveryResponseWellFramed(message: seq<uint8>, o: Outcome)
    ensures Handle(message, o).response == [] || WellFramed(message, Handle(message, o).response)
  {
    hide Handle, Response, FieldsAt, Word, HeaderOf;
    var response := Handle(message, o).response;
    var h := RequestHeaderOf(message);
    if response != [] {
      NibblesOf(message);
      if Parses(message) {
        HeaderByBytes(message);
        AnswerSize(o, message);
        var payload, rc :| |payload| <= 4096 && response == Response(h, payload, rc);
        ResponseReadsBack(h, payload, rc);
      } else {
        RejectedHandling(message, o);
        ResponseReadsBack(h, [], Parsed(FRESH_PROTOCOL, message).1.error);
      }
    }
  }

  lemma NibblesOf(message: seq<uint8>)
    ensures RequestHeaderOf(message).client < 16 && RequestHeaderOf(message).id < 16
  {
    if |message| >= 4 {
      HeaderByBytes(message);
      HeaderFits(Word(message, 0));
    }
  }

  lemma RejectedHandling(message: seq<uint8>, o: Outcome)
    requires !Parses(message)
    ensures var error := Parsed(FRESH_PROTOCOL, message).1.error;
            Handle(message, o) == Handled(Response(RequestHeaderOf(message), [], error), None)
    ensures RequestHeaderOf(message).client < 16 && RequestHeaderOf(message).id < 16
  {
    NibblesOf(message);
    if |message| >= 4 {
      HeaderByBytes(message);
    }
  }

  /** Rejected messages get a bare header with the error, and reach no driver. */
  lemma RejectedResponse(message: seq<uint8>, o: Outcome)
    requires !Parses(message)
    ensures Handle(message, o).call == None && |Handle(message, o).response| == 4
    ensures HeaderOf(Handle(message, o).response).code == if WrongMagic(message) then 0x80 else 0x04
  {
    RejectedHandling(message, o);
    ErrorOfParse(FRESH_PROTOCOL, message);
    BareResponse(RequestHeaderOf(message), Parsed(FRESH_PROTOCOL, message).1.error);
  }

  lemma BareResponse(h: Header, error: int)
    requires h.client < 16 && h.id < 16 && 0 <= error < 2048
    ensures |Response(h, [], error)| == 4 && HeaderOf(Response(h, [], error)).code == error
  {
    StatusVisible(h, [], error, error);
    BareSize(h, error);
  }

  lemma BareSize(h: Header, error: int)
    ensures |Response(h, [], error)| == 4
  {
  }

  /** A message over 8192 bytes, in particular one that fills the receive buffer, is always rejected. */
  lemma OverlongRejected(message: seq<uint8>, o: Outcome)
    requires |message| > 8192
    ensures Handle(message, o).call == None
    ensures |Handle(message, o).response| == 4
    ensures HeaderOf(Handle(message, o).response).code == 0x04
  {
    if Parses(message) {
      AcceptedSize(FRESH_PROTOCOL, message);
    }
    RejectedResponse(message, o);
  }

  /** The response limit of the commands that return a buffer. */
  function BufferLimit(c: Command): Option<nat> {
    match c
    case CreateAttestationSubKey(_, _) => Some(820)
    case GetMeasurement(_, _) => Some(4092)
    case GetAttestationCertificate(_, _) => Some(4096)
    case GetIdCode => Some(4092)
    case GetDeviceIdentity => Some(4092)
    case Mctp(_) => Some(4092)
    case _ => None
  }

  /** The response size the driver left in the struct; the mailbox struct has 16 bits for it. */
  function ClaimedSize(c: Command, reply: Reply): nat
    requires reply.Opens?
  {
    if c.GetIdCode? || c.GetDeviceIdentity? || c.Mctp? then reply.result.size % 0x1_0000 else reply.result.size
  }

  /** The device did not open, the ioctl failed, or the driver claims more than the buffer holds. */
  predicate CallFails(c: Command, o: Outcome) {
    || o.reply.OpenFails? || o.reply.ioctlFails
    || (BufferLimit(c).Some? && ClaimedSize(c, o.reply) > BufferLimit(c).value)
  }

  /** The first n bytes of a zeroed buffer the driver stored into. */
  function LeftByDriver(o: Outcome, n: nat): (b: seq<uint8>)
    requires o.reply.Opens?
    ensures |b| == n
  {
    seq(n, i requires 0 <= i < n => if i < |o.reply.result.stored| then o.reply.result.stored[i] else 0)
  }

  /** The payload a successful call is answered with. */
  function AnswerBytes(c: Command, o: Outcome): seq<uint8>
    requires o.reply.Opens?
  {
    if c.GetChipId? then Bytes(o.reply.result.chipLow) + Bytes(o.reply.result.chipHigh)
    else if BufferLimit(c).Some? then LeftByDriver(o, ClaimedSize(c, o.reply))
    else []
  }

  /** What the client reads: nothing, or a code and a payload. */
  datatype Reaction = Silence | Speaks(code: int, payload: seq<uint8>)

  const UNKNOWN_REPLY := Speaks(0x03, [])

  /** The reaction to a command, by cases on what went wrong. */
  function ReactionTo(c: Command, o: Outcome): Reaction {
    if c.Unknown? then UNKNOWN_REPLY
    else if CallFails(c, o) then
      if c.GetAttestationCertificate? && o.garbage == -1 then UNKNOWN_REPLY else Silence
    else if c.GetAttestationCertificate? && o.reply.result.status == -1 then UNKNOWN_REPLY
    else if |AnswerBytes(c, o)| % 4 != 0 then Speaks(0x01, [])
    else Speaks(o.reply.result.status % 2048, AnswerBytes(c, o))
  }

  /** Reading a response back, as a client with the request's client and id numbers. */
  ghost predicate ReadsAs(response: seq<uint8>, client: uint8, id: uint8, reaction: Reaction) {
    match reaction
    case Silence => response == []
    case Speaks(code, payload) =>
      && |response| == 4 + |payload| && response[4..] == payload
      && |payload| / 4 < 2048 && 0 <= code < 2048
      && HeaderOf(response) == Header(client, id, 0, |payload| / 4, 0, code)
  }

  lemma ResponseReadsAs(h: Header, payload: seq<uint8>, returnCode: int)
    requires h.client < 16 && h.id < 16 && |payload| <= 4096
    ensures var whole := |payload| % WORD_SIZE == 0;
            var reaction := if whole then Speaks(returnCode % 2048, payload) else Speaks(0x01, []);
            ReadsAs(Response(h, payload, returnCode), h.client, h.id, reaction)
  {
    hide Response, FieldsAt, Word, HeaderOf;
    ResponseReadsBack(h, payload, returnCode);
  }

  /** A buffer that was trimmed to the claimed size holds what the driver left there. */
  lemma TrimmedBuffer(max: nat, o: Outcome, n: nat)
    requires o.reply.Opens? && n <= max
    ensures BufferAfter([], max, o.reply)[..n] == LeftByDriver(o, n)
  {
  }

  lemma DispatchedReaction(p: ProtocolState, c: Command, o: Outcome)
    requires Holds(p, c) && p.header.client < 16 && p.header.id < 16
    ensures ReadsAs(Dispatched(p, o).response, p.header.client, p.header.id, ReactionTo(c, o))
  {
    hide Response, FieldsAt, Word, Bytes, ReadsAs, Payload, BufferAfter, LeftByDriver;
    ResponseReadsAs(p.header, [], UNKNOWN_COMMAND);
    if c.Unknown? {
    } else if CallFails(c, o) {
      SilentIsRead(p.header.client, p.header.id);
    } else {
      if BufferLimit(c).Some? {
        TrimmedBuffer(BufferLimit(c).value, o, ClaimedSize(c, o.reply));
      }
      AnswerFits(c, o);
      ResponseReadsAs(p.header, AnswerBytes(c, o), o.reply.result.status);
    }
  }

  lemma SilentIsRead(client: uint8, id: uint8)
    ensures ReadsAs([], client, id, Silence)
  {
  }

  lemma AnswerFits(c: Command, o: Outcome)
    requires o.reply.Opens? && !CallFails(c, o)
    ensures |AnswerBytes(c, o)| <= 4096
  {
  }

  /**
   The response to any request, exactly: the bytes the driver left, cut to the size it
   claimed, with its status modulo 2048; a bare generic error if they are not whole
   words; silence if the call failed or claimed too much; "unknown command" for unknown
   codes and for certificate requests that end with status -1, even where that status
   was never set.
   */
  lemma ResponseOfRequest(r: Request, o: Outcome)
    requires WellFormed(r)
    ensures ReadsAs(Handle(Print(r), o).response, r.client, r.id, ReactionTo(r.command, o))
  {
    hide Dispatched, Handle, Print, ReadsAs;
    var p := HandlePrinted(r, o);
    DispatchedReaction(p, r.command, o);
  }

  /** The reaction to any message: an accepted one is a request, the others get a bare error code. */
  function ReactionToMessage(message: seq<uint8>, o: Outcome): Reaction {
    if Parses(message) then ReactionTo(Read(message).command, o)
    else Speaks(if WrongMagic(message) then 0x80 else 0x04, [])
  }

  /** What the sender of any message reads. */
  lemma ResponseOfMessage(message: seq<uint8>, o: Outcome)
    ensures var request := RequestHeaderOf(message);
            ReadsAs(Handle(message, o).response, request.client, request.id, ReactionToMessage(message, o))
  {
    hide Handle, ReadsAs, FieldsAt, Word, HeaderOf, Response, ReactionTo;
    if Parses(message) {
      PrintRead(message);
      ResponseOfRequest(Read(message), o);
      ReadAddress(message);
    } else {
      RejectedHandling(message, o);
      ErrorOfParse(FRESH_PROTOCOL, message);
      ResponseReadsAs(RequestHeaderOf(message), [], Parsed(FRESH_PROTOCOL, message).1.error);
    }
  }

  lemma ReadAddress(message: seq<uint8>)
    requires Parses(message)
    ensures Read(message).client == RequestHeaderOf(message).client && Read(message).id == RequestHeaderOf(message).id
  {
    HeaderByBytes(message);
  }

  /**
   Exactly when the server stays silent, and so disconnects: an accepted, known command
   whose call failed, except for a certificate request whose uninitialised status variable
   happened to hold -1, which is answered with "unknown command".
   */
  lemma SilenceExactly(message: seq<uint8>, o: Outcome)
    ensures Handle(message, o).response == [] <==>
              && Parses(message)
              && !Read(message).command.Unknown? && CallFails(Read(message).command, o)
              && !(Read(message).command.GetAttestationCertificate? && o.garbage == -1)
  {
    hide Handle, FieldsAt, Word;
    if Parses(message) {
      PrintRead(message);
      ResponseOfRequest(Read(message), o);
    } else {
      RejectedResponse(message, o);
    }
  }

  /** Two commands that differ at most in what is reserved. */
  predicate SameMeaning(c: Command, d: Command) {
    match c
    case SigmaTeardown(_, sessionId) => d.SigmaTeardown? && d.sessionId == sessionId
    case GetAttestationCertificate(request, _) => d.GetAttestationCertificate? && d.request == request
    case CreateAttestationSubKey(_, data) => d.CreateAttestationSubKey? && d.data == data
    case GetMeasurement(_, data) => d.GetMeasurement? && d.data == data
    case _ => c == d
  }

  /** Reserved bits, reserved words and unused payload bytes change neither the call nor the response. */
  lemma ReservedIgnored(r: Request, s: Request, o: Outcome)
    requires WellFormed(r) && WellFormed(s)
    requires r.client == s.client && r.id == s.id && SameMeaning(r.command, s.command)
    ensures Handle(Print(r), o) == Handle(Print(s), o)
  {
    var p := HandlePrinted(r, o);
    var q := HandlePrinted(s, o);
    DispatchedAlike(p, q, r.command, s.command, o);
  }

  lemma DispatchedAlike(p: ProtocolState, q: ProtocolState, c: Command, d: Command, o: Outcome)
    requires Holds(p, c) && Holds(q, d) && SameMeaning(c, d)
    requires p.header.client == q.header.client && p.header.id == q.header.id
    ensures Dispatched(p, o) == Dispatched(q, o)
  {
    if !c.GetAttestationCertificate? {
      assert Payload(c) == Payload(d);
    }
  }
}
