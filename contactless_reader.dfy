/**
 * `BluebirdContactlessReaderAdapter`: the contactless reader of the legacy plugin. Like
 * the card reader adapter it keeps a polling configuration and the state of the
 * current card, which the reader API calls and the discovery broadcasts update in
 * place; it remembers the whole discovered `Tag` and has no removal watch of its own.
 */
module ContactlessReader {
  import opened Wrappers
  import opened ExtNfc
  import opened ReaderSession
  import S = BluebirdSupportContactlessProtocols
  import ContactlessPolling
  import Tags
  import BitMasks

  class BluebirdContactlessReaderAdapter {
    /** The vendor reader obtained from the activity. */
    const nfcReader: NfcReader
    /** `Build.VERSION.SDK_INT >= MIN_SDK_API_LEVEL_ECP`, fixed when the adapter is created. */
    const ecpAvailable: bool

    var isCardDiscovered: bool
    var isBroadcastReceiverRegistered: bool
    var isCardChannelOpen: bool
    /** The card data of the last discovered tag (kept as bytes, not as hex text). */
    var currentPowerOnData: Option<seq<bv8>>
    var currentTag: Option<Tags.Tag>
    var pollingProtocols: bv32
    var vasupPayload: Option<seq<bv8>>
    var vasupMode: Option<VasupMode>
    /** Receiver (un)registrations and `onCardInserted` notifications, in order. */
    ghost var events: seq<HostEvent>

    function Polling(): PollingState
      reads this
    {
      PollingState(pollingProtocols, vasupPayload, vasupMode)
    }

    constructor (nfcReader: NfcReader, sdkInt: int)
      ensures this.nfcReader == nfcReader && ecpAvailable == (sdkInt >= MinSdkApiLevelEcp)
      ensures !isCardDiscovered && !isBroadcastReceiverRegistered && !isCardChannelOpen
      ensures currentTag == None && currentPowerOnData == None
      ensures Polling() == PollingState(0, None, None) && ValidPolling(Polling())
      ensures events == []
    {
      this.nfcReader := nfcReader;
      ecpAvailable := sdkInt >= MinSdkApiLevelEcp;
      isCardDiscovered, isBroadcastReceiverRegistered, isCardChannelOpen := false, false, false;
      currentTag, currentPowerOnData := None, None;
      pollingProtocols, vasupPayload, vasupMode := 0, None, None;
      events := [];
    }

    /** `setSkyEcpVasupPayload(vasupPayload)`. */
    method SetSkyEcpVasupPayload(payload: seq<bv8>) returns (outcome: Outcome<Error>)
      modifies this`vasupPayload
      ensures var st := ReaderSession.SetSkyEcpVasupPayload(old(Polling()), payload, ecpAvailable);
              outcome == st.outcome && Polling() == st.state
    {
      if !ecpAvailable {
        return Fail(UnsupportedOperation);
      }
      if !(5 <= |payload| <= 20) {
        return Fail(IllegalArgument("vasupPayload"));
      }
      vasupPayload := Some(payload);
      outcome := Pass;
    }

    /** The plain branch of `handleProtocol`: `pollingProtocols = operation.applyTo(pollingProtocols, protocol.value)`. */
    method ApplyPlain(p: S.Protocol, op: ContactlessPolling.ProtocolOperation)
      requires ContactlessPolling.IsPlain(p)
      modifies this`pollingProtocols
      ensures pollingProtocols == ContactlessPolling.ApplyTo(op, old(pollingProtocols), S.Bits(p))
    {
      pollingProtocols := ContactlessPolling.ApplyTo(op, pollingProtocols, S.Bits(p));
    }

    /** `handleSkyEcpActivation(protocol)`: OR in the base bit, then check, then configure. */
    method HandleSkyEcpActivation(p: S.Protocol) returns (outcome: Outcome<Error>)
      requires S.IsSkyEcp(p)
      modifies this`pollingProtocols, this`vasupMode, nfcReader
      ensures var st := ContactlessPolling.HandleSkyEcpActivation(old(Polling()), p);
              && outcome == st.outcome && Polling() == st.state
              && nfcReader.log == old(nfcReader.log) + st.ecpCalls
      ensures nfcReader.statusCursor == old(nfcReader.statusCursor)
      ensures nfcReader.transmitCursor == old(nfcReader.transmitCursor)
      ensures nfcReader.isEnabled == old(nfcReader.isEnabled)
    {
      var mode := ContactlessPolling.ModeOf(p);
      pollingProtocols := BitMasks.Set(pollingProtocols, S.Bits(S.Base(p)));
      if vasupMode == Some(Opposite(mode)) {
        return Fail(IllegalState(VasupModeSet(Opposite(mode))));
      }
      if vasupPayload.None? {
        return Fail(IllegalState(VasupPayloadNotSet));
      }
      nfcReader.EcpSetConfiguration(mode, vasupPayload.value);
      vasupMode := Some(mode);
      outcome := Pass;
    }

    /** `handleSkyEcpDeactivation()`. */
    method HandleSkyEcpDeactivation()
      modifies this`vasupMode, nfcReader
      ensures var st := ContactlessPolling.HandleSkyEcpDeactivation(old(Polling()));
              Polling() == st.state && nfcReader.log == old(nfcReader.log) + st.ecpCalls
      ensures nfcReader.statusCursor == old(nfcReader.statusCursor)
      ensures nfcReader.transmitCursor == old(nfcReader.transmitCursor)
      ensures nfcReader.isEnabled == old(nfcReader.isEnabled)
    {
      nfcReader.EcpClearConfiguration();
      vasupMode := None;
    }

    /** The dispatch of `handleProtocol` on the constant `q` named `readerProtocol`. */
    method HandleNamed(q: Option<S.Protocol>, readerProtocol: string, op: ContactlessPolling.ProtocolOperation)
      returns (outcome: Outcome<Error>)
      modifies this`pollingProtocols, this`vasupMode, nfcReader
      ensures var st := ContactlessPolling.HandleNamed(old(Polling()), q, readerProtocol, op, ecpAvailable);
              && outcome == st.outcome && Polling() == st.state
              && nfcReader.log == old(nfcReader.log) + st.ecpCalls
      ensures nfcReader.statusCursor == old(nfcReader.statusCursor)
      ensures nfcReader.transmitCursor == old(nfcReader.transmitCursor)
      ensures nfcReader.isEnabled == old(nfcReader.isEnabled)
    {
      if q.None? {
        return Fail(IllegalArgument(readerProtocol));
      }
      var p := q.value;
      if ContactlessPolling.IsPlain(p) {
        ApplyPlain(p, op);
        return Pass;
      }
      if !ecpAvailable {
        return Fail(UnsupportedOperation);
      }
      if op == ContactlessPolling.Activate {
        outcome := HandleSkyEcpActivation(p);
      } else {
        HandleSkyEcpDeactivation();
        outcome := Pass;
      }
    }

    /** `handleProtocol(readerProtocol, operation)`: `valueOf`, then the dispatch. */
    method HandleProtocol(readerProtocol: string, op: ContactlessPolling.ProtocolOperation)
      returns (outcome: Outcome<Error>)
      modifies this`pollingProtocols, this`vasupMode, nfcReader
      ensures var st := ContactlessPolling.Handle(old(Polling()), readerProtocol, op, ecpAvailable);
              && outcome == st.outcome && Polling() == st.state
              && nfcReader.log == old(nfcReader.log) + st.ecpCalls
      ensures nfcReader.statusCursor == old(nfcReader.statusCursor)
      ensures nfcReader.transmitCursor == old(nfcReader.transmitCursor)
      ensures nfcReader.isEnabled == old(nfcReader.isEnabled)
    {
      outcome := HandleNamed(S.ValueOf(readerProtocol), readerProtocol, op);
    }

    /** `activateProtocol(readerProtocol)`. */
    method ActivateProtocol(readerProtocol: string) returns (outcome: Outcome<Error>)
      modifies this`pollingProtocols, this`vasupMode, nfcReader
      ensures var st := ContactlessPolling.Handle(old(Polling()), readerProtocol, ContactlessPolling.Activate, ecpAvailable);
              && outcome == st.outcome && Polling() == st.state
              && nfcReader.log == old(nfcReader.log) + st.ecpCalls
      ensures nfcReader.statusCursor == old(nfcReader.statusCursor)
      ensures nfcReader.transmitCursor == old(nfcReader.transmitCursor)
      ensures nfcReader.isEnabled == old(nfcReader.isEnabled)
    {
      outcome := HandleProtocol(readerProtocol, ContactlessPolling.Activate);
    }

    /** `deactivateProtocol(readerProtocol)`. */
    method DeactivateProtocol(readerProtocol: string) returns (outcome: Outcome<Error>)
      modifies this`pollingProtocols, this`vasupMode, nfcReader
      ensures var st := ContactlessPolling.Handle(old(Polling()), readerProtocol, ContactlessPolling.Deactivate, ecpAvailable);
              && outcome == st.outcome && Polling() == st.state
              && nfcReader.log == old(nfcReader.log) + st.ecpCalls
      ensures nfcReader.statusCursor == old(nfcReader.statusCursor)
      ensures nfcReader.transmitCursor == old(nfcReader.transmitCursor)
      ensures nfcReader.isEnabled == old(nfcReader.isEnabled)
    {
      outcome := HandleProtocol(readerProtocol, ContactlessPolling.Deactivate);
    }

    /** `currentTag?.currentProtocol`. */
    function CurrentProtocol(): Option<S.Protocol>
      reads this
    {
      match currentTag
      case None => None
      case Some(t) => Some(t.currentProtocol)
    }

    /**
     * `isCurrentProtocol(readerProtocol)`: the name of the current tag's protocol, or an
     * ECP name when the tag reports that variant's base protocol.
     */
    function IsCurrentProtocol(readerProtocol: string): (r: bool)
      reads this
      ensures r <==> exists p: S.Protocol ::
                       && S.Name(p) == readerProtocol
                       && (CurrentProtocol() == Some(p) || (S.IsSkyEcp(p) && CurrentProtocol() == Some(S.Base(p))))
      ensures currentTag.None? ==> !r
    {
      match S.ValueOf(readerProtocol)
      case None => false
      case Some(protocol) =>
        S.NamesDistinct();
        || Some(protocol) == CurrentProtocol()
        || (protocol == S.Iso14443_4ASkyEcp && CurrentProtocol() == Some(S.Iso14443_4A))
        || (protocol == S.Iso14443_4BSkyEcp && CurrentProtocol() == Some(S.Iso14443_4B))
    }

    /** `isProtocolSupported(readerProtocol)`: any of the five constant names. */
    function IsProtocolSupported(readerProtocol: string): (r: bool)
      ensures r <==> exists p: S.Protocol :: S.Name(p) == readerProtocol
    {
      S.ValueOf(readerProtocol).Some?
    }

    /** `openPhysicalChannel`: a negative `connect` status is a `CardIOException`. */
    method OpenPhysicalChannel() returns (outcome: Outcome<Error>)
      modifies this`isCardChannelOpen, nfcReader
      ensures outcome.Pass? <==> old(nfcReader.PendingStatus(0)) >= 0
      ensures outcome.Fail? ==> outcome.error == CardIO(OpenFailed(old(nfcReader.PendingStatus(0))))
      ensures isCardChannelOpen == (outcome.Pass? || old(isCardChannelOpen))
      ensures nfcReader.log == old(nfcReader.log) + [Sent(Connect)]
      ensures nfcReader.statusCursor == old(nfcReader.statusCursor) + 1
      ensures nfcReader.transmitCursor == old(nfcReader.transmitCursor)
      ensures nfcReader.isEnabled == old(nfcReader.isEnabled)
    {
      var status := nfcReader.Send(Connect);
      if status < 0 {
        return Fail(CardIO(OpenFailed(status)));
      }
      isCardChannelOpen := true;
      outcome := Pass;
    }

    /** `closePhysicalChannel`: disconnect (its status ignored), then clear the flag. */
    method ClosePhysicalChannel()
      modifies this`isCardChannelOpen, nfcReader
      ensures !isCardChannelOpen
      ensures nfcReader.log == old(nfcReader.log) + [Sent(Disconnect)]
      ensures nfcReader.statusCursor == old(nfcReader.statusCursor) + 1
      ensures nfcReader.transmitCursor == old(nfcReader.transmitCursor)
      ensures nfcReader.isEnabled == old(nfcReader.isEnabled)
    {
      var status := nfcReader.Send(Disconnect);
      isCardChannelOpen := false;
    }

    function IsPhysicalChannelOpen(): bool
      reads this
    {
      isCardChannelOpen
    }

    /** `getPowerOnData`: the last tag's data, empty when there is none. */
    function GetPowerOnData(): (r: seq<bv8>)
      reads this
      ensures currentPowerOnData.Some? ==> r == currentPowerOnData.value
      ensures currentPowerOnData.None? ==> r == []
    {
      currentPowerOnData.GetOr([])
    }

    /** `transmitApdu(apduIn)`: one `transmit`, whose answer must hold data of at most 256 bytes. */
    method TransmitApdu(apdu: seq<bv8>) returns (r: Result<seq<bv8>, Error>)
      modifies nfcReader
      ensures r == CheckTransmitResult(old(nfcReader.PendingTransmit(0)))
      ensures nfcReader.log == old(nfcReader.log) + [Transmitted(apdu)]
      ensures nfcReader.transmitCursor == old(nfcReader.transmitCursor) + 1
      ensures nfcReader.statusCursor == old(nfcReader.statusCursor)
      ensures nfcReader.isEnabled == old(nfcReader.isEnabled)
    {
      var t := nfcReader.Transmit(apdu);
      if t.data.Some? && |t.data.value| > 256 {
        return Failure(CardIO(UnexpectedResponseLength(|t.data.value|)));
      }
      if t.data.None? {
        return Failure(CardIO(NoResponseData(t.status)));
      }
      r := Success(t.data.value);
    }

    method RegisterBroadcastReceiverIfNeeded()
      modifies this`isBroadcastReceiverRegistered, this`events
      ensures isBroadcastReceiverRegistered
      ensures events == old(events) + (if old(isBroadcastReceiverRegistered) then [] else [ReceiverRegistered])
    {
      if isBroadcastReceiverRegistered {
        return;
      }
      events := events + [ReceiverRegistered];
      isBroadcastReceiverRegistered := true;
    }

    method UnregisterBroadcastReceiver()
      modifies this`isBroadcastReceiverRegistered, this`events
      ensures !isBroadcastReceiverRegistered
      ensures events == old(events) + (if old(isBroadcastReceiverRegistered) then [ReceiverUnregistered] else [])
    {
      if !isBroadcastReceiverRegistered {
        return;
      }
      events := events + [ReceiverUnregistered];
      isBroadcastReceiverRegistered := false;
    }

    /**
     * `onStartDetection`, i.e. `startScan`: enable the reader, hand it the mask, switch
     * the field on, start scanning with one stop-and-restart on "already scanning", and
     * register the receiver once the scan runs.
     */
    method OnStartDetection()
      modifies nfcReader, this`isBroadcastReceiverRegistered, this`events
      ensures var calls := ScanRequests(old(nfcReader.PendingStatus(0)), old(nfcReader.PendingStatus(1)),
                                        old(nfcReader.PendingStatus(2)), old(nfcReader.PendingStatus(3)),
                                        nfcReader.success, nfcReader.errorAlreadyOnScanning);
              && nfcReader.log == old(nfcReader.log) + [Enabled(true), ScanMaskSet(pollingProtocols)] + calls.0
              && nfcReader.statusCursor == old(nfcReader.statusCursor) + |calls.0|
              && isBroadcastReceiverRegistered == (old(isBroadcastReceiverRegistered) || calls.1)
              && events == old(events) + (if calls.1 && !old(isBroadcastReceiverRegistered) then [ReceiverRegistered] else [])
      ensures nfcReader.isEnabled && nfcReader.transmitCursor == old(nfcReader.transmitCursor)
    {
      ghost var calls := ScanRequests(nfcReader.PendingStatus(0), nfcReader.PendingStatus(1),
                                      nfcReader.PendingStatus(2), nfcReader.PendingStatus(3),
                                      nfcReader.success, nfcReader.errorAlreadyOnScanning);
      ghost var log0 := nfcReader.log + [Enabled(true), ScanMaskSet(pollingProtocols)];
      nfcReader.SetEnabled(true);
      nfcReader.SetCardTypeForScan(pollingProtocols);
      assert nfcReader.log == log0;
      assert calls == ScanRequests(nfcReader.PendingStatus(0), nfcReader.PendingStatus(1),
                                   nfcReader.PendingStatus(2), nfcReader.PendingStatus(3),
                                   nfcReader.success, nfcReader.errorAlreadyOnScanning);
      var running := SendScanRequests(nfcReader);
      if running {
        RegisterBroadcastReceiverIfNeeded();
      }
    }

    /** `onStopDetection`: stop, field off, disconnect, disable, unregister; statuses are only logged. */
    method OnStopDetection()
      modifies nfcReader, this`isBroadcastReceiverRegistered, this`events
      ensures nfcReader.log == old(nfcReader.log) + [Sent(StopScan), Sent(CarrierOff), Sent(Disconnect), Enabled(false)]
      ensures nfcReader.statusCursor == old(nfcReader.statusCursor) + 3
      ensures !nfcReader.isEnabled && nfcReader.transmitCursor == old(nfcReader.transmitCursor)
      ensures !isBroadcastReceiverRegistered
      ensures events == old(events) + (if old(isBroadcastReceiverRegistered) then [ReceiverUnregistered] else [])
    {
      var status := nfcReader.Send(StopScan);
      status := nfcReader.Send(CarrierOff);
      status := nfcReader.Send(Disconnect);
      nfcReader.SetEnabled(false);
      UnregisterBroadcastReceiver();
    }

    /** `onUnregister`: disconnect and disable only a reader that is enabled, then unregister. */
    method OnUnregister()
      modifies nfcReader, this`isBroadcastReceiverRegistered, this`events
      ensures old(nfcReader.isEnabled) ==>
                && nfcReader.log == old(nfcReader.log) + [Sent(Disconnect), Enabled(false)]
                && nfcReader.statusCursor == old(nfcReader.statusCursor) + 1
      ensures !old(nfcReader.isEnabled) ==>
                nfcReader.log == old(nfcReader.log) && nfcReader.statusCursor == old(nfcReader.statusCursor)
      ensures !nfcReader.isEnabled && nfcReader.transmitCursor == old(nfcReader.transmitCursor)
      ensures !isBroadcastReceiverRegistered
      ensures events == old(events) + (if old(isBroadcastReceiverRegistered) then [ReceiverUnregistered] else [])
    {
      if nfcReader.isEnabled {
        var status := nfcReader.Send(Disconnect);
        nfcReader.SetEnabled(false);
      }
      UnregisterBroadcastReceiver();
    }

    /** `onTagDiscovered(NfcResultSuccess(tag))`: record the tag and notify the host. */
    method OnTagDiscovered(tag: Tags.Tag)
      modifies this`isCardChannelOpen, this`currentTag, this`currentPowerOnData, this`isCardDiscovered, this`events
      ensures !isCardChannelOpen && isCardDiscovered
      ensures currentTag == Some(tag) && currentPowerOnData == tag.data
      ensures events == old(events) + [CardInserted]
    {
      isCardChannelOpen := false;
      currentTag := Some(tag);
      currentPowerOnData := tag.data;
      isCardDiscovered := true;
      events := events + [CardInserted];
    }

    /**
     * `onReceive(context, intent)`: a detection broadcast whose card type (-1 when the
     * extra is missing) is a known protocol's value becomes a discovered tag; any other
     * broadcast changes nothing, not even the channel flag.
     */
    method OnReceive(intent: Intent)
      modifies this`isCardChannelOpen, this`currentTag, this`currentPowerOnData, this`isCardDiscovered, this`events
      ensures var known := intent.action == ExtNfcDetected && S.FromValue(intent.cardType.GetOr(-1)).Some?;
              && (known ==>
                    && !isCardChannelOpen && isCardDiscovered
                    && currentTag == Some(Tags.Tag(S.FromValue(intent.cardType.GetOr(-1)).value, intent.cardData))
                    && currentPowerOnData == intent.cardData
                    && events == old(events) + [CardInserted])
              && (!known ==>
                    && isCardChannelOpen == old(isCardChannelOpen) && isCardDiscovered == old(isCardDiscovered)
                    && currentTag == old(currentTag) && currentPowerOnData == old(currentPowerOnData)
                    && events == old(events))
    {
      if intent.action == ExtNfcDetected {
        var protocol := S.FromValue(intent.cardType.GetOr(-1));
        if protocol.Some? {
          OnTagDiscovered(Tags.Tag(protocol.value, intent.cardData));
        }
      }
    }
  }
}
