/**
 * What the two contactless reader adapters share: their error kinds, the polling
 * configuration they keep (mask, VASUP payload, VASUP mode), the checks on the VASUP
 * payload and on a `transmit` result, the scan start sequence, and the events they
 * exchange with the host (broadcast registration, card insertion).
 */
module ReaderSession {
  import opened Wrappers
  import opened ExtNfc
  import BitMasks

  /** `MIN_SDK_API_LEVEL_ECP`: SKY ECP needs Android API level 28 or more. */
  const MinSdkApiLevelEcp: int := 28

  /** `PING_APDU` = "00C0000000", the APDU the removal watch sends. */
  const PingApdu: seq<bv8> := [0x00, 0xC0, 0x00, 0x00, 0x00]

  /** Longest response `transmitApdu` forwards. */
  const MaxResponseLength: nat := 256

  /** Why an ECP activation is refused (`IllegalStateException`). */
  datatype EcpFault = VasupModeSet(mode: VasupMode) | VasupPayloadNotSet

  /** Why a channel operation failed (`CardIOException`). */
  datatype CardIOCause =
    | OpenFailed(status: int)
    | UnexpectedResponseLength(length: nat)
    | NoResponseData(status: int)

  /** The exceptions the adapters throw. */
  datatype Error =
    | IllegalArgument(value: string)   // the rejected protocol name or parameter
    | IllegalState(fault: EcpFault)
    | UnsupportedOperation             // ECP used below API level 28
    | CardIO(cause: CardIOCause)

  /** The fields `pollingProtocols`, `vasupPayload` and `vasupMode` of an adapter. */
  datatype PollingState = PollingState(
    pollingProtocols: bv32,
    vasupPayload: Option<seq<bv8>>,
    vasupMode: Option<VasupMode>)

  /** Result of one configuration call: its outcome, the new polling state, the ECP calls made. */
  datatype Step = Step(outcome: Outcome<Error>, state: PollingState, ecpCalls: seq<Call>)

  /** Events between an adapter and its Android host. */
  datatype HostEvent = ReceiverRegistered | ReceiverUnregistered | CardInserted

  datatype IntentAction = ExtNfcDetected | OtherAction

  /** A broadcast: its action and the card type / card data extras, when present. */
  datatype Intent = Intent(action: IntentAction, cardType: Option<int>, cardData: Option<seq<bv8>>)

  function Opposite(mode: VasupMode): VasupMode
  {
    match mode
    case VasupA => VasupB
    case VasupB => VasupA
  }

  predicate ValidPayload(payload: seq<bv8>)
  {
    5 <= |payload| <= 20
  }

  /**
   * What both adapters maintain: a stored payload has 5 to 20 bytes, a VASUP mode is only
   * ever set once a payload is, and the mask only holds the bits of A, B and B Prime.
   */
  predicate ValidPolling(s: PollingState)
  {
    && (s.vasupPayload.Some? ==> ValidPayload(s.vasupPayload.value))
    && (s.vasupMode.Some? ==> s.vasupPayload.Some?)
    && BitMasks.Within(s.pollingProtocols, 0x07)
  }

  /** `setSkyEcpVasupPayload`, identical in both adapters. */
  function SetSkyEcpVasupPayload(s: PollingState, payload: seq<bv8>, ecpAvailable: bool): (r: Step)
    ensures r.outcome.Pass? <==> ecpAvailable && ValidPayload(payload)
    ensures !ecpAvailable ==> r.outcome == Fail(UnsupportedOperation)
    ensures ecpAvailable && !ValidPayload(payload) ==> r.outcome == Fail(IllegalArgument("vasupPayload"))
    ensures r.outcome.Fail? ==> r.state == s
    ensures r.outcome.Pass? ==> r.state.vasupPayload == Some(payload)
    ensures r.state.pollingProtocols == s.pollingProtocols && r.state.vasupMode == s.vasupMode
    ensures r.ecpCalls == []
    ensures ValidPolling(s) ==> ValidPolling(r.state)
  {
    if !ecpAvailable then Step(Fail(UnsupportedOperation), s, [])
    else if !(5 <= |payload| <= 20) then Step(Fail(IllegalArgument("vasupPayload")), s, [])
    else Step(Pass, s.(vasupPayload := Some(payload)), [])
  }

  /** `transmitApdu`'s check of the reader's answer: data present and at most 256 bytes. */
  function CheckTransmitResult(t: TransmitResult): (r: Result<seq<bv8>, Error>)
    ensures r.Success? <==> t.data.Some? && |t.data.value| <= MaxResponseLength
    ensures r.Success? ==> r.value == t.data.value
    ensures r.Failure? ==> r.error.CardIO?
  {
    if t.data.Some? && |t.data.value| > 256 then
      Failure(CardIO(UnexpectedResponseLength(|t.data.value|)))
    else
      match t.data
      case None => Failure(CardIO(NoResponseData(t.status)))
      case Some(d) => Success(d)
  }

  /** A probe of the removal watch fails, i.e. `transmitApdu` throws. */
  predicate ProbeFails(t: TransmitResult)
  {
    CheckTransmitResult(t).Failure?
  }

  /** `n` transmissions of the ping APDU, as they appear in the reader's call log. */
  function Pings(n: nat): seq<Call>
  {
    seq(n, _ => Transmitted(PingApdu))
  }

  /** One more probe appends one ping to the log. */
  lemma PingsGrow(n: nat)
    ensures Pings(n + 1) == Pings(n) + [Transmitted(PingApdu)]
  {
  }

  /**
   * The status-returning calls of `startScan` (after `enable(true)` and setting the scan
   * mask), given the first four statuses the reader answers with, and whether the scan
   * is running at the end, which is when the receiver gets registered.
   */
  function ScanRequests(s0: int, s1: int, s2: int, s3: int, success: int, alreadyOnScanning: int)
    : (r: (seq<Call>, bool))
    ensures 1 <= |r.0| <= 4 && r.0[0] == Sent(CarrierOn)
    // carrier-on failure stops everything
    ensures s0 != success ==> r.0 == [Sent(CarrierOn)] && !r.1
    // a stop is sent only after "already scanning", and a second start only after a successful stop
    ensures Sent(StopScan) in r.0 <==> s0 == success && s1 == alreadyOnScanning
    ensures |r.0| == 4 <==> s0 == success && s1 == alreadyOnScanning && s2 == success
    ensures |r.0| >= 2 ==> r.0[1] == Sent(StartScan)
    ensures |r.0| == 4 ==> r.0[2..] == [Sent(StopScan), Sent(StartScan)]
    // the normal path: one start, and the scan runs when it answered SUCCESS
    ensures s0 == success && s1 != alreadyOnScanning ==> r.0 == [Sent(CarrierOn), Sent(StartScan)] && (r.1 <==> s1 == success)
    // a failed stop ends the sequence without a second start
    ensures |r.0| == 3 ==> r.0 == [Sent(CarrierOn), Sent(StartScan), Sent(StopScan)] && !r.1
    // the scan runs exactly when the last status read was SUCCESS after a start
    ensures r.1 <==> r.0[|r.0| - 1] == Sent(StartScan) && [s0, s1, s2, s3][|r.0| - 1] == success
  {
    if s0 != success then ([Sent(CarrierOn)], false)
    else if s1 == alreadyOnScanning then
      if s2 == success then ([Sent(CarrierOn), Sent(StartScan), Sent(StopScan), Sent(StartScan)], s3 == success)
      else ([Sent(CarrierOn), Sent(StartScan), Sent(StopScan)], false)
    else ([Sent(CarrierOn), Sent(StartScan)], s1 == success)
  }

  /** The "already scanning" recovery of `startScan`: stop, then start again if the stop succeeded. */
  method RestartScan(nfcReader: NfcReader) returns (status: int)
    modifies nfcReader
    ensures var stopped := old(nfcReader.PendingStatus(0)) == nfcReader.success;
            && status == (if stopped then old(nfcReader.PendingStatus(1)) else old(nfcReader.PendingStatus(0)))
            && nfcReader.log == old(nfcReader.log) + (if stopped then [Sent(StopScan), Sent(Request.StartScan)] else [Sent(StopScan)])
            && nfcReader.statusCursor == old(nfcReader.statusCursor) + (if stopped then 2 else 1)
    ensures nfcReader.isEnabled == old(nfcReader.isEnabled)
    ensures nfcReader.transmitCursor == old(nfcReader.transmitCursor)
  {
    status := nfcReader.Send(StopScan);
    if status == nfcReader.success {
      status := nfcReader.Send(Request.StartScan);
    }
  }

  /**
   * The status-returning calls of `startScan`, identical in both adapters; the result
   * says whether the scan runs.
   */
  method SendScanRequests(nfcReader: NfcReader) returns (running: bool)
    modifies nfcReader
    ensures var calls := ScanRequests(old(nfcReader.PendingStatus(0)), old(nfcReader.PendingStatus(1)),
                                      old(nfcReader.PendingStatus(2)), old(nfcReader.PendingStatus(3)),
                                      nfcReader.success, nfcReader.errorAlreadyOnScanning);
            && nfcReader.log == old(nfcReader.log) + calls.0
            && nfcReader.statusCursor == old(nfcReader.statusCursor) + |calls.0|
            && running == calls.1
    ensures nfcReader.isEnabled == old(nfcReader.isEnabled)
    ensures nfcReader.transmitCursor == old(nfcReader.transmitCursor)
  {
    ghost var c, f := nfcReader.statusCursor, nfcReader.statusScript;
    var status := nfcReader.Send(CarrierOn);
    if status != nfcReader.success {
      return false;
    }
    status := nfcReader.Send(Request.StartScan);
    assert status == f(c + 1);
    if status == nfcReader.errorAlreadyOnScanning {
      status := RestartScan(nfcReader);
    }
    running := status == nfcReader.success;
  }
}
