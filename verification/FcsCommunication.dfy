/**
 One driver call per operation: open the device, ioctl, close, trim the response.
 */
module FcsCommunication {
  import opened Bits
  import opened Utils
  import opened Kernels

  const CHIP_ID_SIZE := 8
  const ATTESTATION_SUBKEY_RSP_MAX_SZ := 820
  const ATTESTATION_MEASUREMENT_RSP_MAX_SZ := 4092
  const ATTESTATION_CERTIFICATE_RSP_MAX_SZ := 4096
  const MBOX_SEND_RSP_MAX_SZ := 4092

  /** What an operation reports to its caller. */
  datatype Answer = Failed | Answered(payload: seq<uint8>, status: int32)

  predicate Succeeds(reply: Reply) { reply.Opens? && !reply.ioctlFails }

  function ChipIdAnswer(reply: Reply): Answer {
    if Succeeds(reply) then Answered(Bytes(reply.result.chipLow) + Bytes(reply.result.chipHigh), reply.result.status)
    else Failed
  }

  function TeardownAnswer(reply: Reply): Answer {
    if Succeeds(reply) then Answered([], reply.result.status) else Failed
  }

  /** The response buffer after the call, before it is trimmed. */
  function BufferAfter(before: seq<uint8>, max: nat, reply: Reply): (b: seq<uint8>)
    ensures |b| == max
  {
    if reply.OpenFails? then Resized(before, max) else Overwritten(Resized(before, max), reply.result.stored)
  }

  /** An operation that fills a buffer; claimed is the response size the driver left in the struct. */
  function BufferAnswer(before: seq<uint8>, max: nat, reply: Reply, claimed: nat): Answer {
    if Succeeds(reply) && claimed <= max then Answered(BufferAfter(before, max, reply)[..claimed], reply.result.status)
    else Failed
  }

  function Claimed32(reply: Reply): uint32 { if reply.Opens? then reply.result.size else 0 }

  /** The mailbox struct keeps the response size in 16 bits. */
  function Claimed16(reply: Reply): uint16 { Claimed32(reply) % 0x1_0000 }

  /** The log of one call: the open, and the ioctl when the open succeeded. */
  function CallLog(request: DriverRequest, reply: Reply): seq<Action> {
    if reply.OpenFails? then [DeviceOpened(false)] else [DeviceOpened(true), Ioctl(request)]
  }

  /** A call leaves the descriptors as they were. */
  function Called(k: KernelState, request: DriverRequest, reply: Reply): KernelState {
    k.(log := k.log + CallLog(request, reply))
  }

  /** sendIoctl. The device is closed on every path on which it was opened. */
  method SendIoctl(kernel: Kernel, request: DriverRequest, buffer: ByteVector?, reply: Reply)
    returns (ok: bool, result: IoctlResult)
    requires Sane(kernel.state)
    modifies kernel, buffer
    ensures kernel.state == Called(old(kernel.state), request, reply)
    ensures kernel.state.open == old(kernel.state.open) && kernel.state.conn == old(kernel.state.conn)
    ensures kernel.state.log == old(kernel.state.log)
              + if reply.OpenFails? then [DeviceOpened(false)] else [DeviceOpened(true), Ioctl(request)]
    ensures ok == Succeeds(reply)
    ensures ok ==> result == reply.result
    ensures buffer != null ==>
              buffer.bytes ==
              if reply.OpenFails? then old(buffer.bytes) else Overwritten(old(buffer.bytes), reply.result.stored)
  {
    result := IoctlResult(-1, 0, 0, 0, []);
    var deviceFileDescriptor := kernel.OpenDevice(reply);
    if deviceFileDescriptor < 0 {
      return false, result;
    }
    assert deviceFileDescriptor !in old(kernel.state).open;
    kernel.DoIoctl(deviceFileDescriptor, request, buffer, reply.result);
    if reply.ioctlFails {
      kernel.Close(deviceFileDescriptor);
      DeviceClosed(old(kernel.state), request, reply, deviceFileDescriptor);
      return false, result;
    }
    result := reply.result;
    kernel.Close(deviceFileDescriptor);
    DeviceClosed(old(kernel.state), request, reply, deviceFileDescriptor);
    return true, result;
  }

  lemma DeviceClosed(k: KernelState, request: DriverRequest, reply: Reply, fd: int)
    requires Sane(k) && reply.Opens? && fd == AfterOpenDevice(k, reply).1
    ensures AfterClose(AfterIoctl(AfterOpenDevice(k, reply).0, fd, request), fd) == Called(k, request, reply)
  {
    assert k.open + {fd} - {fd} == k.open;
    assert k.conn - {fd} == k.conn;
    assert k.log + [DeviceOpened(true)] + [Ioctl(request)] == k.log + CallLog(request, reply);
  }

  method GetChipId(kernel: Kernel, outBuffer: ByteVector, fcsStatus: int32, reply: Reply)
    returns (ok: bool, status: int32)
    requires Sane(kernel.state)
    modifies kernel, outBuffer
    ensures kernel.state == Called(old(kernel.state), ChipId, reply)
    ensures ok == ChipIdAnswer(reply).Answered?
    ensures ok ==> Answered(outBuffer.bytes, status) == ChipIdAnswer(reply)
    ensures !ok ==> outBuffer.bytes == old(outBuffer.bytes) && status == fcsStatus
  {
    var data;
    ok, data := SendIoctl(kernel, ChipId, null, reply);
    if !ok {
      return false, fcsStatus;
    }
    outBuffer.Resize(CHIP_ID_SIZE);
    var low := EncodeToLittleEndianBuffer(data.chipLow, outBuffer, 0);
    var high := EncodeToLittleEndianBuffer(data.chipHigh, outBuffer, 4);
    assert low.Returned? && high.Returned?;
    assert outBuffer.bytes == Bytes(data.chipLow) + Bytes(data.chipHigh);
    return true, data.status;
  }

  method SigmaTeardown(kernel: Kernel, sessionId: uint32, fcsStatus: int32, reply: Reply)
    returns (ok: bool, status: int32)
    requires Sane(kernel.state)
    modifies kernel
    ensures kernel.state == Called(old(kernel.state), Teardown(true, sessionId), reply)
    ensures ok == TeardownAnswer(reply).Answered?
    ensures status == if ok then TeardownAnswer(reply).status else fcsStatus
  {
    var data;
    ok, data := SendIoctl(kernel, Teardown(true, sessionId), null, reply);
    if !ok {
      return false, fcsStatus;
    }
    return true, data.status;
  }

  method CreateAttestationSubkey(
    kernel: Kernel, inBuffer: seq<uint8>, outBuffer: ByteVector, fcsStatus: int32, reply: Reply)
    returns (ok: bool, status: int32)
    requires Sane(kernel.state)
    modifies kernel, outBuffer
    ensures var request := Subkey(0, inBuffer, AsUint32(|inBuffer|), ATTESTATION_SUBKEY_RSP_MAX_SZ);
            kernel.state == Called(old(kernel.state), request, reply)
    ensures BufferCallPost(old(outBuffer.bytes), outBuffer.bytes, ATTESTATION_SUBKEY_RSP_MAX_SZ,
                           reply, Claimed32(reply), ok, fcsStatus, status)
  {
    outBuffer.Resize(ATTESTATION_SUBKEY_RSP_MAX_SZ);
    var request := Subkey(0, inBuffer, AsUint32(|inBuffer|), |outBuffer.bytes|);
    var data;
    ok, data := SendIoctl(kernel, request, outBuffer, reply);
    if !ok || data.size > ATTESTATION_SUBKEY_RSP_MAX_SZ {
      return false, fcsStatus;
    }
    outBuffer.Resize(data.size);
    return true, data.status;
  }

  method GetMeasurement(kernel: Kernel, inBuffer: seq<uint8>, outBuffer: ByteVector, fcsStatus: int32, reply: Reply)
    returns (ok: bool, status: int32)
    requires Sane(kernel.state)
    modifies kernel, outBuffer
    ensures var request := Measurement(0, inBuffer, AsUint32(|inBuffer|), ATTESTATION_MEASUREMENT_RSP_MAX_SZ);
            kernel.state == Called(old(kernel.state), request, reply)
    ensures BufferCallPost(old(outBuffer.bytes), outBuffer.bytes, ATTESTATION_MEASUREMENT_RSP_MAX_SZ,
                           reply, Claimed32(reply), ok, fcsStatus, status)
  {
    outBuffer.Resize(ATTESTATION_MEASUREMENT_RSP_MAX_SZ);
    var request := Measurement(0, inBuffer, AsUint32(|inBuffer|), |outBuffer.bytes|);
    var data;
    ok, data := SendIoctl(kernel, request, outBuffer, reply);
    if !ok || data.size > ATTESTATION_MEASUREMENT_RSP_MAX_SZ {
      return false, fcsStatus;
    }
    outBuffer.Resize(data.size);
    return true, data.status;
  }

  /** On failure the status the caller passed in is left as it is. */
  method GetAttestationCertificate(
    kernel: Kernel, certificateRequest: uint8, outBuffer: ByteVector, fcsStatus: int32, reply: Reply)
    returns (ok: bool, status: int32)
    requires Sane(kernel.state)
    modifies kernel, outBuffer
    ensures var request := Certificate(certificateRequest, ATTESTATION_CERTIFICATE_RSP_MAX_SZ);
            kernel.state == Called(old(kernel.state), request, reply)
    ensures BufferCallPost(old(outBuffer.bytes), outBuffer.bytes, ATTESTATION_CERTIFICATE_RSP_MAX_SZ,
                           reply, Claimed32(reply), ok, fcsStatus, status)
  {
    outBuffer.Resize(ATTESTATION_CERTIFICATE_RSP_MAX_SZ);
    var request := Certificate(certificateRequest, |outBuffer.bytes|);
    var data;
    ok, data := SendIoctl(kernel, request, outBuffer, reply);
    if !ok || data.size > ATTESTATION_CERTIFICATE_RSP_MAX_SZ {
      return false, fcsStatus;
    }
    outBuffer.Resize(data.size);
    return true, data.status;
  }

  /** Both sizes in the mailbox struct are 16 bits wide. */
  method MailboxGeneric(
    kernel: Kernel, commandCode: uint32, inBuffer: seq<uint8>, outBuffer: ByteVector, fcsStatus: int32, reply: Reply)
    returns (ok: bool, status: int32)
    requires Sane(kernel.state)
    modifies kernel, outBuffer
    ensures var request := Mailbox(commandCode, 0, inBuffer, |inBuffer| % 0x1_0000, MBOX_SEND_RSP_MAX_SZ);
            kernel.state == Called(old(kernel.state), request, reply)
    ensures BufferCallPost(old(outBuffer.bytes), outBuffer.bytes, MBOX_SEND_RSP_MAX_SZ,
                           reply, Claimed16(reply), ok, fcsStatus, status)
  {
    outBuffer.Resize(MBOX_SEND_RSP_MAX_SZ);
    var request := Mailbox(commandCode, 0, inBuffer, |inBuffer| % 0x1_0000, |outBuffer.bytes| % 0x1_0000);
    var data;
    ok, data := SendIoctl(kernel, request, outBuffer, reply);
    if !ok || data.size % 0x1_0000 > MBOX_SEND_RSP_MAX_SZ {
      return false, fcsStatus;
    }
    outBuffer.Resize(data.size % 0x1_0000);
    return true, data.status;
  }

  /** What an operation that fills a buffer leaves behind. */
  ghost predicate BufferCallPost(before: seq<uint8>, after: seq<uint8>, max: nat, reply: Reply, claimed: nat,
                                 ok: bool, oldStatus: int32, status: int32)
  {
    var answer := BufferAnswer(before, max, reply, claimed);
    && ok == answer.Answered?
    && (ok ==> after == answer.payload && status == answer.status)
    && (!ok ==> after == BufferAfter(before, max, reply) && status == oldStatus)
  }
}
