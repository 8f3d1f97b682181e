/**
 handleIncomingMessage: parse, call the driver, print the response.
 */
module MessageHandler {
  import opened Bits
  import opened Utils
  import opened Headers
  import opened Protocol
  import opened Kernels
  import opened FcsCommunication

  /** The response (empty for none) and the driver call made (at most one). */
  datatype Handled = Handled(response: seq<uint8>, call: Option<DriverRequest>)

  function Finished(header: Header, answer: Answer): seq<uint8> {
    match answer
    case Failed => []
    case Answered(payload, status) => Response(header, payload, status)
  }

  function CertificateResponse(header: Header, answer: Answer, garbage: int32): seq<uint8> {
    var status := if answer.Answered? then answer.status else garbage;
    if status == -1 then Response(header, [], UNKNOWN_COMMAND) else Finished(header, answer)
  }

  /** What the switch on the command code does with a parsed message. */
  function Dispatched(p: ProtocolState, o: Outcome): Handled
    requires SizeCorrect(p.header.code, p.payload)
  {
    var h, code, size := p.header, p.header.code, AsUint32(|p.payload|);
    if code == GET_CHIP_ID then
      Handled(Finished(h, ChipIdAnswer(o.reply)), Some(ChipId))
    else if code == SIGMA_TEARDOWN then
      Handled(Finished(h, TeardownAnswer(o.reply)),
              Some(Teardown(true, Word(p.payload, SIGMA_TEARDOWN_SESSIONID_OFFSET))))
    else if code == CREATE_ATTESTATION_SUB_KEY then
      Handled(Finished(h, BufferAnswer([], ATTESTATION_SUBKEY_RSP_MAX_SZ, o.reply, Claimed32(o.reply))),
              Some(Subkey(0, p.payload, size, ATTESTATION_SUBKEY_RSP_MAX_SZ)))
    else if code == GET_MEASUREMENT then
      Handled(Finished(h, BufferAnswer([], ATTESTATION_MEASUREMENT_RSP_MAX_SZ, o.reply, Claimed32(o.reply))),
              Some(Measurement(0, p.payload, size, ATTESTATION_MEASUREMENT_RSP_MAX_SZ)))
    else if code == GET_ATTESTATION_CERTIFICATE then
      var answer := BufferAnswer([], ATTESTATION_CERTIFICATE_RSP_MAX_SZ, o.reply, Claimed32(o.reply));
      Handled(CertificateResponse(h, answer, o.garbage),
              Some(Certificate(p.payload[0], ATTESTATION_CERTIFICATE_RSP_MAX_SZ)))
    else if code == MCTP || code == GET_ID_CODE || code == GET_DEVICE_IDENTITY then
      Handled(Finished(h, BufferAnswer([], MBOX_SEND_RSP_MAX_SZ, o.reply, Claimed16(o.reply))),
              Some(Mailbox(code, 0, p.payload, |p.payload| % 0x1_0000, MBOX_SEND_RSP_MAX_SZ)))
    else
      Handled(Response(h, [], UNKNOWN_COMMAND), None)
  }

  function Handle(message: seq<uint8>, o: Outcome): Handled {
    var (ok, p) := Parsed(FRESH_PROTOCOL, message);
    if ok then ParsedSize(FRESH_PROTOCOL, message); Dispatched(p, o)
    else Handled(Response(p.header, [], p.error), None)
  }

  lemma ParsedSize(p: ProtocolState, message: seq<uint8>)
    requires Parsed(p, message).0
    ensures var q := Parsed(p, message).1; SizeCorrect(q.header.code, q.payload)
  {
  }

  /** The log entries of handling one message. */
  function HandlingLog(call: Option<DriverRequest>, reply: Reply): seq<Action> {
    if call.None? then [] else CallLog(call.value, reply)
  }

  function Handling(k: KernelState, call: Option<DriverRequest>, reply: Reply): KernelState {
    k.(log := k.log + HandlingLog(call, reply))
  }

  lemma HandlingInFull(k: KernelState, call: Option<DriverRequest>, reply: Reply)
    ensures Handling(k, call, reply).open == k.open && Handling(k, call, reply).conn == k.conn
    ensures call == None ==> Handling(k, call, reply) == k
    ensures call.Some? ==>
              Handling(k, call, reply).log == k.log
              + if reply.OpenFails? then [DeviceOpened(false)] else [DeviceOpened(true), Ioctl(call.value)]
  {
    assert k.log + [] == k.log;
  }

  /**
   Whatever arrives and whatever the driver answers, no exception leaves the handler. A
   response replaces whatever the response buffer held; no response leaves it alone.
   */
  method HandleIncomingMessage(kernel: Kernel, messageBuffer: seq<uint8>, responseBuffer: ByteVector, o: Outcome)
    returns (r: Result<()>)
    requires Sane(kernel.state)
    modifies kernel, responseBuffer
    ensures r == Returned(())
    ensures kernel.state == Handling(old(kernel.state), Handle(messageBuffer, o).call, o.reply)
    ensures Handle(messageBuffer, o).call == None ==> kernel.state == old(kernel.state)
    ensures kernel.state.open == old(kernel.state.open) && kernel.state.conn == old(kernel.state.conn)
    ensures Handle(messageBuffer, o).call.Some? ==>
              var request := Handle(messageBuffer, o).call.value;
              kernel.state.log == old(kernel.state.log)
              + if o.reply.OpenFails? then [DeviceOpened(false)] else [DeviceOpened(true), Ioctl(request)]
    ensures var response := Handle(messageBuffer, o).response;
            responseBuffer.bytes == if response == [] then old(responseBuffer.bytes) else response
  {
    hide Layout, Bytes, BufferAnswer, BufferAfter, CallLog, Claimed16, Claimed32, ChipIdAnswer;
    HandlingInFull(old(kernel.state), Handle(messageBuffer, o).call, o.reply);
    var verifierProtocol := new VerifierProtocol();
    var parsed := verifierProtocol.ParseMessage(messageBuffer);
    if !parsed.value {
      assert kernel.state.log + [] == kernel.state.log;
      r := verifierProtocol.PrepareResponseMessage([], responseBuffer, verifierProtocol.errorCode);
      return;
    }
    ghost var p := verifierProtocol.State();
    ParsedSize(FRESH_PROTOCOL, messageBuffer);

    var payloadFromFcs := new ByteVector([]);
    var fcsCallSucceeded := false;
    var statusReturnedFromFcs: int32 := o.garbage;
    var code := verifierProtocol.GetCommandCode();
    if code == GET_CHIP_ID {
      fcsCallSucceeded, statusReturnedFromFcs := GetChipId(kernel, payloadFromFcs, statusReturnedFromFcs, o.reply);
    } else if code == SIGMA_TEARDOWN {
      var sessionId := verifierProtocol.GetSigmaTeardownSessionId();
      fcsCallSucceeded, statusReturnedFromFcs := SigmaTeardown(kernel, sessionId.value, statusReturnedFromFcs, o.reply);
    } else if code == CREATE_ATTESTATION_SUB_KEY {
      fcsCallSucceeded, statusReturnedFromFcs := CreateAttestationSubkey(
        kernel, verifierProtocol.incomingPayload, payloadFromFcs, statusReturnedFromFcs, o.reply);
    } else if code == GET_MEASUREMENT {
      fcsCallSucceeded, statusReturnedFromFcs := GetMeasurement(
        kernel, verifierProtocol.incomingPayload, payloadFromFcs, statusReturnedFromFcs, o.reply);
    } else if code == GET_ATTESTATION_CERTIFICATE {
      var request := verifierProtocol.GetCertificateRequest();
      fcsCallSucceeded, statusReturnedFromFcs := GetAttestationCertificate(
        kernel, request.value, payloadFromFcs, statusReturnedFromFcs, o.reply);
      if statusReturnedFromFcs == -1 {
        r := verifierProtocol.PrepareEmptyResponseMessage(responseBuffer, UNKNOWN_COMMAND);
        return;
      }
    } else if code == MCTP || code == GET_ID_CODE || code == GET_DEVICE_IDENTITY {
      fcsCallSucceeded, statusReturnedFromFcs := MailboxGeneric(
        kernel, code, verifierProtocol.incomingPayload, payloadFromFcs, statusReturnedFromFcs, o.reply);
    } else {
      assert kernel.state.log + [] == kernel.state.log;
      r := verifierProtocol.PrepareEmptyResponseMessage(responseBuffer, UNKNOWN_COMMAND);
      return;
    }
    assert kernel.state == Handling(old(kernel.state), Dispatched(p, o).call, o.reply);
    if !fcsCallSucceeded {
      assert Dispatched(p, o).response == [];
      return Returned(());
    }
    r := verifierProtocol.PrepareResponseMessage(payloadFromFcs.bytes, responseBuffer, statusReturnedFromFcs);
    assert responseBuffer.bytes == Dispatched(p, o).response;
  }
}
