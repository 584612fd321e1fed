/**
 * `BluebirdCardReaderAdapter`: the contactless reader of the newer plugin. Its fields
 * are updated in place by the reader API calls, the broadcast receiver and the
 * card-removal watch; the vendor reader is the scripted `NfcReader` transport.
 */
module CardReader {
  import opened Wrappers
  import opened ExtNfc
  import opened ReaderSession
  import P = BluebirdContactlessProtocols
  import CardReaderPolling
  import BitMasks

  class BluebirdCardReaderAdapter {
    /** The vendor reader obtained from the activity. */
    const nfcReader: NfcReader
    /** `Build.VERSION.SDK_INT >= MIN_SDK_API_LEVEL_ECP`, fixed when the adapter is created. */
    const ecpAvailable: bool

    var isBroadcastReceiverRegistered: bool
    var isCardChannelOpen: bool
    var isWaitingForCardRemoval: bool
    var currentProtocol: Option<P.Protocol>
    /** The card data of the last discovered card (kept as bytes, not as hex text). */
    var currentPowerOnData: Option<seq<bv8>>
    var pollingProtocols: bv32
    var vasupPayload: Option<seq<bv8>>
    var vasupMode: Option<VasupMode>
    /** Receiver (un)registrations and `onCardInserted` notifications, in order. */
    ghost var events: seq<HostEvent>

    function Polling(): PollingState
      reads this
    {
      PollingState(pollingProtocols, vasupPayload, vasupMode)
    }

    constructor (nfcReader: NfcReader, sdkInt: int)
      ensures this.nfcReader == nfcReader && ecpAvailable == (sdkInt >= MinSdkApiLevelEcp)
      ensures !isBroadcastReceiverRegistered && !isCardChannelOpen && !isWaitingForCardRemoval
      ensures currentProtocol == None && currentPowerOnData == None
      ensures Polling() == PollingState(0, None, None) && ValidPolling(Polling())
      ensures events == []
    {
      this.nfcReader := nfcReader;
      ecpAvailable := sdkInt >= MinSdkApiLevelEcp;
      isBroadcastReceiverRegistered, isCardChannelOpen, isWaitingForCardRemoval := false, false, false;
      currentProtocol, currentPowerOnData := None, None;
      pollingProtocols, vasupPayload, vasupMode := 0, None, None;
      events := [];
    }

    /** `setSkyEcpVasupPayload(vasupPayload)`. */
    method SetSkyEcpVasupPayload(payload: seq<bv8>) returns (outcome: Outcome<Error>)
      modifies this`vasupPayload
      ensures var st := ReaderSession.SetSkyEcpVasupPayload(old(Polling()), payload, ecpAvailable);
              outcome == st.outcome && Polling() == st.state
    {
      if !ecpAvailable {
        return Fail(UnsupportedOperation);
      }
      if !(5 <= |payload| <= 20) {
        return Fail(IllegalArgument("vasupPayload"));
      }
      vasupPayload := Some(payload);
      outcome := Pass;
    }

    /** The plain branches of `activateProtocol`: OR in the protocol's bit. */
    method ActivatePlain(p: P.Protocol, readerProtocol: string)
      requires CardReaderPolling.IsPlain(p)
      modifies this`pollingProtocols
      ensures Polling() == CardReaderPolling.ActivateNamed(old(Polling()), Some(p), readerProtocol, ecpAvailable).state
    {
      pollingProtocols := BitMasks.Set(pollingProtocols, P.Bits(p));
    }

    /** The ECP branches of `activateProtocol`: check, then record the mode, configure, OR the base bit. */
    method ActivateSkyEcp(p: P.Protocol, readerProtocol: string) returns (outcome: Outcome<Error>)
      requires P.IsSkyEcp(p)
      modifies this`pollingProtocols, this`vasupMode, nfcReader
      ensures var st := CardReaderPolling.ActivateNamed(old(Polling()), Some(p), readerProtocol, ecpAvailable);
              && outcome == st.outcome && Polling() == st.state
              && nfcReader.log == old(nfcReader.log) + st.ecpCalls
      ensures nfcReader.statusCursor == old(nfcReader.statusCursor)
      ensures nfcReader.transmitCursor == old(nfcReader.transmitCursor)
      ensures nfcReader.isEnabled == old(nfcReader.isEnabled)
    {
      var mode := CardReaderPolling.ModeOf(p);
      if !ecpAvailable {
        return Fail(UnsupportedOperation);
      }
      if vasupMode == Some(Opposite(mode)) {
        return Fail(IllegalState(VasupModeSet(Opposite(mode))));
      }
      if vasupPayload.None? {
        return Fail(IllegalState(VasupPayloadNotSet));
      }
      vasupMode := Some(mode);
      nfcReader.EcpSetConfiguration(mode, vasupPayload.value);
      pollingProtocols := BitMasks.Set(pollingProtocols, P.Bits(P.Base(p)));
      outcome := Pass;
    }

    /**
     * `activateProtocol(readerProtocol)`. The source's `when` compares the name with each
     * constant's `name`; since names are distinct, that is a dispatch on `valueOf`.
     */
    method ActivateProtocol(readerProtocol: string) returns (outcome: Outcome<Error>)
      modifies this`pollingProtocols, this`vasupMode, nfcReader
      ensures var st := CardReaderPolling.Activate(old(Polling()), readerProtocol, ecpAvailable);
              && outcome == st.outcome && Polling() == st.state
              && nfcReader.log == old(nfcReader.log) + st.ecpCalls
      ensures nfcReader.statusCursor == old(nfcReader.statusCursor)
      ensures nfcReader.transmitCursor == old(nfcReader.transmitCursor)
      ensures nfcReader.isEnabled == old(nfcReader.isEnabled)
    {
      outcome := ActivateNamed(P.ValueOf(readerProtocol), readerProtocol);
    }

    /** The dispatch of `activateProtocol` on the constant `q` named `readerProtocol`. */
    method ActivateNamed(q: Option<P.Protocol>, readerProtocol: string) returns (outcome: Outcome<Error>)
      modifies this`pollingProtocols, this`vasupMode, nfcReader
      ensures var st := CardReaderPolling.ActivateNamed(old(Polling()), q, readerProtocol, ecpAvailable);
              && outcome == st.outcome && Polling() == st.state
              && nfcReader.log == old(nfcReader.log) + st.ecpCalls
      ensures nfcReader.statusCursor == old(nfcReader.statusCursor)
      ensures nfcReader.transmitCursor == old(nfcReader.transmitCursor)
      ensures nfcReader.isEnabled == old(nfcReader.isEnabled)
    {
      if q.Some? && CardReaderPolling.IsPlain(q.value) {
        ActivatePlain(q.value, readerProtocol);
        outcome := Pass;
      } else if q.Some? && P.IsSkyEcp(q.value) {
        outcome := ActivateSkyEcp(q.value, readerProtocol);
      } else {
        outcome := Fail(IllegalArgument(readerProtocol));
      }
    }

    /** The plain branches of `deactivateProtocol`: clear the protocol's bit with AND-NOT. */
    method DeactivatePlain(p: P.Protocol, readerProtocol: string)
      requires CardReaderPolling.IsPlain(p)
      modifies this`pollingProtocols
      ensures Polling() == CardReaderPolling.DeactivateNamed(old(Polling()), Some(p), readerProtocol, ecpAvailable).state
    {
      pollingProtocols := BitMasks.Clear(pollingProtocols, P.Bits(p));
    }

    /** The ECP branch of `deactivateProtocol`, shared by both ECP names. */
    method DeactivateSkyEcp(p: P.Protocol, readerProtocol: string) returns (outcome: Outcome<Error>)
      requires P.IsSkyEcp(p)
      modifies this`vasupMode, nfcReader
      ensures var st := CardReaderPolling.DeactivateNamed(old(Polling()), Some(p), readerProtocol, ecpAvailable);
              && outcome == st.outcome && Polling() == st.state
              && nfcReader.log == old(nfcReader.log) + st.ecpCalls
      ensures nfcReader.statusCursor == old(nfcReader.statusCursor)
      ensures nfcReader.transmitCursor == old(nfcReader.transmitCursor)
      ensures nfcReader.isEnabled == old(nfcReader.isEnabled)
    {
      if !ecpAvailable {
        return Fail(UnsupportedOperation);
      }
      nfcReader.EcpClearConfiguration();
      vasupMode := None;
      outcome := Pass;
    }

    /** `deactivateProtocol(readerProtocol)`, dispatched on `valueOf` like `activateProtocol`. */
    method DeactivateProtocol(readerProtocol: string) returns (outcome: Outcome<Error>)
      modifies this`pollingProtocols, this`vasupMode, nfcReader
      ensures var st := CardReaderPolling.Deactivate(old(Polling()), readerProtocol, ecpAvailable);
              && outcome == st.outcome && Polling() == st.state
              && nfcReader.log == old(nfcReader.log) + st.ecpCalls
      ensures nfcReader.statusCursor == old(nfcReader.statusCursor)
      ensures nfcReader.transmitCursor == old(nfcReader.transmitCursor)
      ensures nfcReader.isEnabled == old(nfcReader.isEnabled)
    {
      outcome := DeactivateNamed(P.ValueOf(readerProtocol), readerProtocol);
    }

    /** The dispatch of `deactivateProtocol` on the constant `q` named `readerProtocol`. */
    method DeactivateNamed(q: Option<P.Protocol>, readerProtocol: string) returns (outcome: Outcome<Error>)
      modifies this`pollingProtocols, this`vasupMode, nfcReader
      ensures var st := CardReaderPolling.DeactivateNamed(old(Polling()), q, readerProtocol, ecpAvailable);
              && outcome == st.outcome && Polling() == st.state
              && nfcReader.log == old(nfcReader.log) + st.ecpCalls
      ensures nfcReader.statusCursor == old(nfcReader.statusCursor)
      ensures nfcReader.transmitCursor == old(nfcReader.transmitCursor)
      ensures nfcReader.isEnabled == old(nfcReader.isEnabled)
    {
      if q.Some? && CardReaderPolling.IsPlain(q.value) {
        DeactivatePlain(q.value, readerProtocol);
        outcome := Pass;
      } else if q.Some? && P.IsSkyEcp(q.value) {
        outcome := DeactivateSkyEcp(q.value, readerProtocol);
      } else {
        outcome := Fail(IllegalArgument(readerProtocol));
      }
    }

    /**
     * `isCurrentProtocol(readerProtocol)`: the name of the discovered protocol, or an ECP
     * name when the reader reported that variant's base protocol.
     */
    function IsCurrentProtocol(readerProtocol: string): (r: bool)
      reads this
      ensures r <==> exists p: P.Protocol ::
                       && P.Name(p) == readerProtocol
                       && (currentProtocol == Some(p) || (P.IsSkyEcp(p) && currentProtocol == Some(P.Base(p))))
      ensures P.ValueOf(readerProtocol).None? ==> !r
    {
      match P.ValueOf(readerProtocol)
      case None => false
      case Some(protocol) =>
        P.NamesDistinct();
        || Some(protocol) == currentProtocol
        || (protocol == P.Iso14443_4ASkyEcp && currentProtocol == Some(P.Iso14443_4A))
        || (protocol == P.Iso14443_4BSkyEcp && currentProtocol == Some(P.Iso14443_4B))
    }

    /** `isProtocolSupported(readerProtocol)`: any constant name, configurable or not. */
    function IsProtocolSupported(readerProtocol: string): (r: bool)
      ensures r <==> exists p: P.Protocol :: P.Name(p) == readerProtocol
    {
      P.ValueOf(readerProtocol).Some?
    }

    /** `openPhysicalChannel`: a negative `connect` status is a `CardIOException`. */
    method OpenPhysicalChannel() returns (outcome: Outcome<Error>)
      modifies this`isCardChannelOpen, nfcReader
      ensures outcome.Pass? <==> old(nfcReader.PendingStatus(0)) >= 0
      ensures outcome.Fail? ==> outcome.error == CardIO(OpenFailed(old(nfcReader.PendingStatus(0))))
      ensures isCardChannelOpen == (outcome.Pass? || old(isCardChannelOpen))
      ensures nfcReader.log == old(nfcReader.log) + [Sent(Connect)]
      ensures nfcReader.statusCursor == old(nfcReader.statusCursor) + 1
      ensures nfcReader.transmitCursor == old(nfcReader.transmitCursor)
      ensures nfcReader.isEnabled == old(nfcReader.isEnabled)
    {
      var status := nfcReader.Send(Connect);
      if status < 0 {
        return Fail(CardIO(OpenFailed(status)));
      }
      isCardChannelOpen := true;
      outcome := Pass;
    }

    /** `closePhysicalChannel`: only the flag; the reader is not told. */
    method ClosePhysicalChannel()
      modifies this`isCardChannelOpen
      ensures !isCardChannelOpen
    {
      isCardChannelOpen := false;
    }

    function IsPhysicalChannelOpen(): bool
      reads this
    {
      isCardChannelOpen
    }

    /** `getPowerOnData`: the last card's data, empty when there is none. */
    function GetPowerOnData(): (r: seq<bv8>)
      reads this
      ensures currentPowerOnData.Some? ==> r == currentPowerOnData.value
      ensures currentPowerOnData.None? ==> r == []
    {
      currentPowerOnData.GetOr([])
    }

    /** `transmitApdu(apduIn)`: one `transmit`, whose answer must hold data of at most 256 bytes. */
    method TransmitApdu(apdu: seq<bv8>) returns (r: Result<seq<bv8>, Error>)
      modifies nfcReader
      ensures r == CheckTransmitResult(old(nfcReader.PendingTransmit(0)))
      ensures nfcReader.log == old(nfcReader.log) + [Transmitted(apdu)]
      ensures nfcReader.transmitCursor == old(nfcReader.transmitCursor) + 1
      ensures nfcReader.statusCursor == old(nfcReader.statusCursor)
      ensures nfcReader.isEnabled == old(nfcReader.isEnabled)
    {
      var t := nfcReader.Transmit(apdu);
      if t.data.Some? && |t.data.value| > 256 {
        return Failure(CardIO(UnexpectedResponseLength(|t.data.value|)));
      }
      if t.data.None? {
        return Failure(CardIO(NoResponseData(t.status)));
      }
      r := Success(t.data.value);
    }

    method RegisterBroadcastReceiverIfNeeded()
      modifies this`isBroadcastReceiverRegistered, this`events
      ensures isBroadcastReceiverRegistered
      ensures events == old(events) + (if old(isBroadcastReceiverRegistered) then [] else [ReceiverRegistered])
    {
      if isBroadcastReceiverRegistered {
        return;
      }
      events := events + [ReceiverRegistered];
      isBroadcastReceiverRegistered := true;
    }

    method UnregisterBroadcastReceiver()
      modifies this`isBroadcastReceiverRegistered, this`events
      ensures !isBroadcastReceiverRegistered
      ensures events == old(events) + (if old(isBroadcastReceiverRegistered) then [ReceiverUnregistered] else [])
    {
      if !isBroadcastReceiverRegistered {
        return;
      }
      events := events + [ReceiverUnregistered];
      isBroadcastReceiverRegistered := false;
    }

    /**
     * `startScan` (called by `onStartDetection`): enable the reader, hand it the mask,
     * switch the field on, start scanning with one stop-and-restart on "already
     * scanning", and register the receiver once the scan runs.
     */
    method StartScan()
      modifies nfcReader, this`isBroadcastReceiverRegistered, this`events
      ensures var calls := ScanRequests(old(nfcReader.PendingStatus(0)), old(nfcReader.PendingStatus(1)),
                                        old(nfcReader.PendingStatus(2)), old(nfcReader.PendingStatus(3)),
                                        nfcReader.success, nfcReader.errorAlreadyOnScanning);
              && nfcReader.log == old(nfcReader.log) + [Enabled(true), ScanMaskSet(pollingProtocols)] + calls.0
              && nfcReader.statusCursor == old(nfcReader.statusCursor) + |calls.0|
              && isBroadcastReceiverRegistered == (old(isBroadcastReceiverRegistered) || calls.1)
              && events == old(events) + (if calls.1 && !old(isBroadcastReceiverRegistered) then [ReceiverRegistered] else [])
      ensures nfcReader.isEnabled && nfcReader.transmitCursor == old(nfcReader.transmitCursor)
    {
      ghost var calls := ScanRequests(nfcReader.PendingStatus(0), nfcReader.PendingStatus(1),
                                      nfcReader.PendingStatus(2), nfcReader.PendingStatus(3),
                                      nfcReader.success, nfcReader.errorAlreadyOnScanning);
      ghost var log0 := nfcReader.log + [Enabled(true), ScanMaskSet(pollingProtocols)];
      nfcReader.SetEnabled(true);
      nfcReader.SetCardTypeForScan(pollingProtocols);
      assert nfcReader.log == log0;
      assert calls == ScanRequests(nfcReader.PendingStatus(0), nfcReader.PendingStatus(1),
                                   nfcReader.PendingStatus(2), nfcReader.PendingStatus(3),
                                   nfcReader.success, nfcReader.errorAlreadyOnScanning);
      var running := SendScanRequests(nfcReader);
      if running {
        RegisterBroadcastReceiverIfNeeded();
      }
    }

    /** `onStopDetection`: stop, field off, disconnect, disable, unregister; statuses are only logged. */
    method OnStopDetection()
      modifies nfcReader, this`isBroadcastReceiverRegistered, this`events
      ensures nfcReader.log == old(nfcReader.log) + [Sent(StopScan), Sent(CarrierOff), Sent(Disconnect), Enabled(false)]
      ensures nfcReader.statusCursor == old(nfcReader.statusCursor) + 3
      ensures !nfcReader.isEnabled && nfcReader.transmitCursor == old(nfcReader.transmitCursor)
      ensures !isBroadcastReceiverRegistered
      ensures events == old(events) + (if old(isBroadcastReceiverRegistered) then [ReceiverUnregistered] else [])
    {
      var status := nfcReader.Send(StopScan);
      status := nfcReader.Send(CarrierOff);
      status := nfcReader.Send(Disconnect);
      nfcReader.SetEnabled(false);
      UnregisterBroadcastReceiver();
    }

    /** `onUnregister`: disconnect and disable only a reader that is enabled, then unregister. */
    method OnUnregister()
      modifies nfcReader, this`isBroadcastReceiverRegistered, this`events
      ensures old(nfcReader.isEnabled) ==>
                && nfcReader.log == old(nfcReader.log) + [Sent(Disconnect), Enabled(false)]
                && nfcReader.statusCursor == old(nfcReader.statusCursor) + 1
      ensures !old(nfcReader.isEnabled) ==>
                nfcReader.log == old(nfcReader.log) && nfcReader.statusCursor == old(nfcReader.statusCursor)
      ensures !nfcReader.isEnabled && nfcReader.transmitCursor == old(nfcReader.transmitCursor)
      ensures !isBroadcastReceiverRegistered
      ensures events == old(events) + (if old(isBroadcastReceiverRegistered) then [ReceiverUnregistered] else [])
    {
      if nfcReader.isEnabled {
        var status := nfcReader.Send(Disconnect);
        nfcReader.SetEnabled(false);
      }
      UnregisterBroadcastReceiver();
    }

    /**
     * `onReceive(context, intent)`: a detection broadcast closes the channel and records
     * `fromValue(cardType)` (-1 when the extra is missing); only a known protocol updates
     * the power-on data and notifies the host.
     */
    method OnReceive(intent: Intent)
      modifies this`isCardChannelOpen, this`currentProtocol, this`currentPowerOnData, this`events
      ensures intent.action != ExtNfcDetected ==>
                && isCardChannelOpen == old(isCardChannelOpen) && currentProtocol == old(currentProtocol)
                && currentPowerOnData == old(currentPowerOnData) && events == old(events)
      ensures intent.action == ExtNfcDetected ==>
                && !isCardChannelOpen
                && currentProtocol == P.FromValue(intent.cardType.GetOr(-1))
                && (currentProtocol.Some? ==> currentPowerOnData == intent.cardData && events == old(events) + [CardInserted])
                && (currentProtocol.None? ==> currentPowerOnData == old(currentPowerOnData) && events == old(events))
    {
      if intent.action == ExtNfcDetected {
        isCardChannelOpen := false;
        currentProtocol := P.FromValue(intent.cardType.GetOr(-1));
        if currentProtocol.Some? {
          currentPowerOnData := intent.cardData;
          events := events + [CardInserted];
        }
      }
    }

    /** One round of the removal watch: send the ping APDU and disconnect if it fails. */
    method PingCard() returns (removed: bool)
      modifies nfcReader
      ensures removed == ProbeFails(old(nfcReader.PendingTransmit(0)))
      ensures nfcReader.log == old(nfcReader.log) + [Transmitted(PingApdu)] + (if removed then [Sent(Disconnect)] else [])
      ensures nfcReader.statusCursor == old(nfcReader.statusCursor) + (if removed then 1 else 0)
      ensures nfcReader.transmitCursor == old(nfcReader.transmitCursor) + 1
      ensures nfcReader.isEnabled == old(nfcReader.isEnabled)
    {
      var r := TransmitApdu(PingApdu);
      removed := r.Failure?;
      if removed {
        var status := nfcReader.Send(Disconnect);
      }
    }

    /**
     * `waitForCardRemoval`: unless a watch is already running, send the ping APDU until
     * `transmitApdu` fails (then disconnect) or `stopWaitForCardRemoval` is observed.
     * The concurrent stop is the parameter `stopAfter`: the index of the probe during
     * which it arrives, if any. Some probe must fail or a stop must arrive, else the
     * watch would run forever.
     */
    method WaitForCardRemoval(stopAfter: Option<nat>) returns (probes: nat)
      requires !isWaitingForCardRemoval ==>
                 stopAfter.Some? || exists k: nat :: ProbeFails(nfcReader.PendingTransmit(k))
      modifies this`isWaitingForCardRemoval, nfcReader
      ensures old(isWaitingForCardRemoval) ==>
                && probes == 0 && isWaitingForCardRemoval
                && nfcReader.log == old(nfcReader.log)
                && nfcReader.statusCursor == old(nfcReader.statusCursor)
                && nfcReader.transmitCursor == old(nfcReader.transmitCursor)
      ensures !old(isWaitingForCardRemoval) ==>
                && probes >= 1 && !isWaitingForCardRemoval
                // every probe before the last answered and no stop came
                && (forall i: nat :: i < probes - 1 ==>
                      !ProbeFails(old(nfcReader.PendingTransmit(i))) && stopAfter != Some(i))
                // the last one failed or saw the stop
                && (ProbeFails(old(nfcReader.PendingTransmit(probes - 1))) || stopAfter == Some(probes - 1))
                && nfcReader.transmitCursor == old(nfcReader.transmitCursor) + probes
                && (ProbeFails(old(nfcReader.PendingTransmit(probes - 1))) ==>
                      && nfcReader.log == old(nfcReader.log) + Pings(probes) + [Sent(Disconnect)]
                      && nfcReader.statusCursor == old(nfcReader.statusCursor) + 1)
                && (!ProbeFails(old(nfcReader.PendingTransmit(probes - 1))) ==>
                      && nfcReader.log == old(nfcReader.log) + Pings(probes)
                      && nfcReader.statusCursor == old(nfcReader.statusCursor))
      ensures nfcReader.isEnabled == old(nfcReader.isEnabled)
    {
      if isWaitingForCardRemoval {
        return 0;
      }
      probes := WatchForRemoval(stopAfter);
    }

    /** The probing loop of `waitForCardRemoval`, entered when no watch is running. */
    method WatchForRemoval(stopAfter: Option<nat>) returns (probes: nat)
      requires !isWaitingForCardRemoval
      requires stopAfter.Some? || exists k: nat :: ProbeFails(nfcReader.PendingTransmit(k))
      modifies this`isWaitingForCardRemoval, nfcReader
      ensures probes >= 1 && !isWaitingForCardRemoval
      ensures forall i: nat :: i < probes - 1 ==>
                !ProbeFails(old(nfcReader.PendingTransmit(i))) && stopAfter != Some(i)
      ensures ProbeFails(old(nfcReader.PendingTransmit(probes - 1))) || stopAfter == Some(probes - 1)
      ensures nfcReader.transmitCursor == old(nfcReader.transmitCursor) + probes
      ensures ProbeFails(old(nfcReader.PendingTransmit(probes - 1))) ==>
                && nfcReader.log == old(nfcReader.log) + Pings(probes) + [Sent(Disconnect)]
                && nfcReader.statusCursor == old(nfcReader.statusCursor) + 1
      ensures !ProbeFails(old(nfcReader.PendingTransmit(probes - 1))) ==>
                && nfcReader.log == old(nfcReader.log) + Pings(probes)
                && nfcReader.statusCursor == old(nfcReader.statusCursor)
      ensures nfcReader.isEnabled == old(nfcReader.isEnabled)
    {
      ghost var bound: nat;
      if stopAfter.Some? {
        bound := stopAfter.value;
      } else {
        var k: nat :| ProbeFails(nfcReader.PendingTransmit(k));
        bound := k;
      }
      isWaitingForCardRemoval := true;
      probes := 0;
      while isWaitingForCardRemoval
        invariant nfcReader.transmitCursor == old(nfcReader.transmitCursor) + probes
        invariant nfcReader.isEnabled == old(nfcReader.isEnabled)
        invariant isWaitingForCardRemoval ==> probes <= bound
        invariant forall i: nat :: i < probes - 1 ==>
                    !ProbeFails(old(nfcReader.PendingTransmit(i))) && stopAfter != Some(i)
        invariant isWaitingForCardRemoval ==>
                    && (probes >= 1 ==> !ProbeFails(old(nfcReader.PendingTransmit(probes - 1))) && stopAfter != Some(probes - 1))
                    && nfcReader.log == old(nfcReader.log) + Pings(probes)
                    && nfcReader.statusCursor == old(nfcReader.statusCursor)
        invariant !isWaitingForCardRemoval ==>
                    && probes >= 1
                    && (ProbeFails(old(nfcReader.PendingTransmit(probes - 1))) || stopAfter == Some(probes - 1))
                    && (ProbeFails(old(nfcReader.PendingTransmit(probes - 1))) ==>
                          nfcReader.log == old(nfcReader.log) + Pings(probes) + [Sent(Disconnect)]
                          && nfcReader.statusCursor == old(nfcReader.statusCursor) + 1)
                    && (!ProbeFails(old(nfcReader.PendingTransmit(probes - 1))) ==>
                          nfcReader.log == old(nfcReader.log) + Pings(probes)
                          && nfcReader.statusCursor == old(nfcReader.statusCursor))
        decreases if isWaitingForCardRemoval then bound + 1 - probes else 0
      {
        assert nfcReader.PendingTransmit(0) == old(nfcReader.PendingTransmit(probes));
        var removed := PingCard();
        PingsGrow(probes);
        probes := probes + 1;
        if removed {
          isWaitingForCardRemoval := false;
        } else if stopAfter == Some(probes - 1) {
          // `stopWaitForCardRemoval` ran on another thread during this probe
          isWaitingForCardRemoval := false;
        }
      }
    }

    /** `stopWaitForCardRemoval`. */
    method StopWaitForCardRemoval()
      modifies this`isWaitingForCardRemoval
      ensures !isWaitingForCardRemoval
    {
      isWaitingForCardRemoval := false;
    }
  }
}
