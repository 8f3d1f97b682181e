/**
 Parsing of requests and printing of responses.
 */
module Protocol {
  import opened Bits
  import opened Utils
  import opened Headers

  const RESERVED_BYTES_COUNT := 4
  const SIGMA_TEARDOWN_MAGIC := 0xb852_e2a4
  const SIGMA_TEARDOWN_SESSIONID_OFFSET := 4
  const GET_ATT_CERT_CERTIFICATE_REQUEST_MASK := 0xFF

  // Command codes
  const GET_ID_CODE := 0x10
  const GET_CHIP_ID := 0x12
  const SIGMA_TEARDOWN := 0xd5
  const GET_ATTESTATION_CERTIFICATE := 0x181
  const CREATE_ATTESTATION_SUB_KEY := 0x182
  const GET_MEASUREMENT := 0x183
  const MCTP := 0x194
  const GET_DEVICE_IDENTITY := 0x500

  // Error codes
  const NO_ERROR := 0x00
  const GENERIC_ERROR := 0x01
  const UNKNOWN_COMMAND := 0x03
  const INVALID_HEADER := 0x04
  const INVALID_MAGIC := 0x80

  const PAYLOAD_SIZES: map<int, nat> :=
    map[SIGMA_TEARDOWN := 8, GET_ATTESTATION_CERTIFICATE := 4, GET_CHIP_ID := 0, GET_DEVICE_IDENTITY := 0,
        GET_ID_CODE := 0]

  /** The value of a protocol object. */
  datatype ProtocolState = ProtocolState(header: Header, payload: seq<uint8>, error: int)

  const FRESH_PROTOCOL := ProtocolState(ZERO_HEADER, [], GENERIC_ERROR)

  predicate HasReservedWord(code: int) {
    code == SIGMA_TEARDOWN || code == CREATE_ATTESTATION_SUB_KEY || code == GET_MEASUREMENT
  }

  function PayloadOffset(code: int): nat {
    HEADER_SIZE + if HasReservedWord(code) then RESERVED_BYTES_COUNT else 0
  }

  predicate SizeCorrect(code: int, payload: seq<uint8>) {
    code in PAYLOAD_SIZES ==> PAYLOAD_SIZES[code] == |payload|
  }

  /** parseMessage as a function: whether it succeeded, and the object it leaves. */
  function Parsed(p: ProtocolState, message: seq<uint8>): (bool, ProtocolState) {
    if |message| < HEADER_SIZE then (false, p.(error := INVALID_HEADER))
    else ParsedAfterHeader(p.(header := FieldsAt(Word(message, 0))), message)
  }

  function ParsedAfterHeader(q: ProtocolState, message: seq<uint8>): (bool, ProtocolState)
    requires |message| >= HEADER_SIZE
  {
    var offset := PayloadOffset(q.header.code);
    if |message| - HEADER_SIZE != q.header.length as int * WORD_SIZE
        || |message| < offset then (false, q.(error := INVALID_HEADER))
    else
      var payload := message[offset..];
      if !SizeCorrect(q.header.code, payload) then (false, q.(payload := payload, error := INVALID_HEADER))
      else if q.header.code == SIGMA_TEARDOWN && Word(payload, 0) != SIGMA_TEARDOWN_MAGIC then
        (false, q.(payload := payload, error := INVALID_MAGIC))
      else (true, q.(payload := payload, error := NO_ERROR))
  }

  /** The header of a response: integer conversions of the class fields included. */
  function ResponseHeader(request: Header, words: nat, returnCode: int): Header {
    Header(request.client, request.id, 0, words % 0x1_0000, 0, returnCode % 0x1_0000)
  }

  /** prepareResponseMessage as a function of the request header only. */
  function Response(request: Header, payload: seq<uint8>, returnCode: int): seq<uint8> {
    if |payload| % WORD_SIZE != 0 then Bytes(Layout(ResponseHeader(request, 0, GENERIC_ERROR)))
    else Bytes(Layout(ResponseHeader(request, |payload| / WORD_SIZE, returnCode))) + payload
  }

  class VerifierProtocol {
    var incomingPayload: seq<uint8>
    const incomingHeader: CommandHeader
    var errorCode: int

    constructor ()
      ensures fresh(incomingHeader)
      ensures State() == FRESH_PROTOCOL
    {
      incomingPayload := [];
      incomingHeader := new CommandHeader();
      errorCode := GENERIC_ERROR;
    }

    function State(): ProtocolState
      reads this, incomingHeader
    {
      ProtocolState(incomingHeader.Value(), incomingPayload, errorCode)
    }

    method ParseMessage(messageBuffer: seq<uint8>) returns (r: Result<bool>)
      modifies this, incomingHeader
      ensures r == Returned(Parsed(old(State()), messageBuffer).0)
      ensures State() == Parsed(old(State()), messageBuffer).1
    {
      if |messageBuffer| < HEADER_SIZE {
        errorCode := INVALID_HEADER;
        return Returned(false);
      }
      var parsed := incomingHeader.Parse(messageBuffer);
      assert parsed.Returned?;
      var actualDataSizeInBytes := |messageBuffer| - HEADER_SIZE;
      var dataSizeFromHeaderInBytes := incomingHeader.length as int * WORD_SIZE;
      if actualDataSizeInBytes != dataSizeFromHeaderInBytes {
        errorCode := INVALID_HEADER;
        return Returned(false);
      }
      var payloadOffset := GetPayloadOffset();
      if |messageBuffer| < payloadOffset {
        errorCode := INVALID_HEADER;
        return Returned(false);
      }
      incomingPayload := messageBuffer[payloadOffset..];
      var sizeCorrect := IsPayloadSizeCorrect();
      if !sizeCorrect {
        return Returned(false);
      }
      var magicCorrect := IsMagicWordCorrect();
      if !magicCorrect.value {
        return Returned(false);
      }
      errorCode := NO_ERROR;
      return Returned(true);
    }

    method GetPayloadOffset() returns (offset: nat)
      ensures offset == PayloadOffset(incomingHeader.code)
    {
      var messageReservedBytesCount := 0;
      if incomingHeader.code == SIGMA_TEARDOWN
         || incomingHeader.code == CREATE_ATTESTATION_SUB_KEY
         || incomingHeader.code == GET_MEASUREMENT
      {
        messageReservedBytesCount := RESERVED_BYTES_COUNT;
      }
      return HEADER_SIZE + messageReservedBytesCount;
    }

    method IsPayloadSizeCorrect() returns (correct: bool)
      modifies `errorCode
      ensures correct == SizeCorrect(incomingHeader.code, incomingPayload)
      ensures errorCode == if correct then old(errorCode) else INVALID_HEADER
    {
      if incomingHeader.code in PAYLOAD_SIZES && PAYLOAD_SIZES[incomingHeader.code] != |incomingPayload| {
        errorCode := INVALID_HEADER;
        return false;
      }
      return true;
    }

    method IsMagicWordCorrect() returns (r: Result<bool>)
      modifies `errorCode
      ensures incomingHeader.code != SIGMA_TEARDOWN ==> r == Returned(true) && errorCode == old(errorCode)
      ensures incomingHeader.code == SIGMA_TEARDOWN && |incomingPayload| < WORD_SIZE ==>
                r == Thrown(InvalidArgument) && errorCode == old(errorCode)
      ensures incomingHeader.code == SIGMA_TEARDOWN && |incomingPayload| >= WORD_SIZE ==>
                && r == Returned(Word(incomingPayload, 0) == SIGMA_TEARDOWN_MAGIC)
                && errorCode == if r.value then old(errorCode) else INVALID_MAGIC
    {
      if incomingHeader.code == SIGMA_TEARDOWN {
        var incomingMagic := DecodeFromLittleEndianBuffer(incomingPayload, 0);
        if incomingMagic.Thrown? {
          return Thrown(incomingMagic.exception);
        }
        if incomingMagic.value != SIGMA_TEARDOWN_MAGIC {
          errorCode := INVALID_MAGIC;
          return Returned(false);
        }
      }
      return Returned(true);
    }

    method PrepareEmptyResponseMessage(responseBuffer: ByteVector, returnCode: int) returns (r: Result<()>)
      modifies responseBuffer
      ensures r == Returned(()) && responseBuffer.bytes == Response(incomingHeader.Value(), [], returnCode)
      decreases 0, 1
    {
      r := PrepareResponseMessage([], responseBuffer, returnCode);
    }

    /** The two printers call each other; a payload that is not made of whole words is replaced by an empty one. */
    method PrepareResponseMessage(payloadBuffer: seq<uint8>, responseBuffer: ByteVector, returnCode: int)
      returns (r: Result<()>)
      modifies responseBuffer
      ensures r == Returned(()) && responseBuffer.bytes == Response(incomingHeader.Value(), payloadBuffer, returnCode)
      decreases |payloadBuffer| % WORD_SIZE, 0
    {
      if |payloadBuffer| % WORD_SIZE != 0 {
        r := PrepareEmptyResponseMessage(responseBuffer, GENERIC_ERROR);
        return;
      }
      var outgoingHeader := new CommandHeader();
      outgoingHeader.client := incomingHeader.client;
      outgoingHeader.id := incomingHeader.id;
      outgoingHeader.length := |payloadBuffer| / WORD_SIZE % 0x1_0000;
      outgoingHeader.res1 := 0;
      outgoingHeader.res2 := 0;
      outgoingHeader.code := returnCode % 0x1_0000;

      responseBuffer.Resize(HEADER_SIZE);
      r := outgoingHeader.Encode(responseBuffer);
      if |payloadBuffer| > 0 {
        responseBuffer.Append(payloadBuffer);
      }
    }

    method GetCommandCode() returns (code: uint32)
      ensures code == incomingHeader.code
    {
      return incomingHeader.code;
    }

    method GetSigmaTeardownSessionId() returns (r: Result<uint32>)
      ensures r == if incomingHeader.code == SIGMA_TEARDOWN && |incomingPayload| >= 8
                   then Returned(Word(incomingPayload, SIGMA_TEARDOWN_SESSIONID_OFFSET)) else Thrown(LogicError)
    {
      var code := GetCommandCode();
      if code != SIGMA_TEARDOWN {
        return Thrown(LogicError);
      }
      if |incomingPayload| < PAYLOAD_SIZES[SIGMA_TEARDOWN] {
        return Thrown(LogicError);
      }
      r := DecodeFromLittleEndianBuffer(incomingPayload, SIGMA_TEARDOWN_SESSIONID_OFFSET);
    }

    method GetCertificateRequest() returns (r: Result<uint8>)
      ensures r == if incomingHeader.code == GET_ATTESTATION_CERTIFICATE && |incomingPayload| >= 4
                   then Returned(incomingPayload[0]) else Thrown(LogicError)
    {
      var code := GetCommandCode();
      if code != GET_ATTESTATION_CERTIFICATE {
        return Thrown(LogicError);
      }
      if |incomingPayload| < PAYLOAD_SIZES[GET_ATTESTATION_CERTIFICATE] {
        return Thrown(LogicError);
      }
      var getAttCertPayload := DecodeFromLittleEndianBuffer(incomingPayload, 0);
      LowByte(incomingPayload);
      return Returned(And(getAttCertPayload.value, GET_ATT_CERT_CERTIFICATE_REQUEST_MASK) % 0x100);
    }
  }

  /** Masking a decoded word with 0xFF picks the first byte of the buffer. */
  lemma LowByte(b: seq<uint8>)
    requires |b| >= WORD_SIZE
    ensures And(Word(b, 0), GET_ATT_CERT_CERTIFICATE_REQUEST_MASK) == b[0]
  {
    assert Pow2(8) == 0x100;
    AndMask(Word(b, 0), 8);
    Digits(b[0], b[1], b[2], b[3]);
  }
}
