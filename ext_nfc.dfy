/**
 * The vendor reader (`ExtNfcReader` and its `ECP` interface) as a scripted transport.
 * Every status-returning call answers with the next value of `statusScript`, every
 * `transmit` with the next value of `transmitScript`, and every call is appended to
 * the ghost `log`, so that callers can state which calls they made and in which order.
 */
module ExtNfc {
  import opened Wrappers

  /** `ExtNfcReader.ECP.Mode.VASUP_A` / `VASUP_B`. */
  datatype VasupMode = VasupA | VasupB

  /** What `transmit` hands back: `mData` (possibly null) and `mResult`. */
  datatype TransmitResult = TransmitResult(data: Option<seq<bv8>>, status: int)

  /** The vendor calls that answer with a status code. */
  datatype Request = Connect | Disconnect | StartScan | StopScan | CarrierOn | CarrierOff

  /** One call made on the vendor reader. */
  datatype Call =
    | Sent(request: Request)
    | Enabled(on: bool)
    | ScanMaskSet(mask: bv32)
    | Transmitted(apdu: seq<bv8>)
    | EcpConfigured(mode: VasupMode, payload: seq<bv8>)
    | EcpCleared

  class NfcReader {
    /** `ResultCode.SUCCESS`; the vendor's numeric value is not needed, only its identity. */
    const success: int
    /** `ResultCode.ERROR_ALREADY_ON_SCANNING`. */
    const errorAlreadyOnScanning: int
    /** The status the k-th status-returning call answers with. */
    const statusScript: nat -> int
    /** The result the k-th `transmit` answers with. */
    const transmitScript: nat -> TransmitResult

    var statusCursor: nat
    var transmitCursor: nat
    /** `isEnabled`, as last set by `enable`. */
    var isEnabled: bool
    ghost var log: seq<Call>

    constructor (success: int, errorAlreadyOnScanning: int, statusScript: nat -> int,
                 transmitScript: nat -> TransmitResult, isEnabled: bool)
      requires success != errorAlreadyOnScanning
      ensures this.success == success && this.errorAlreadyOnScanning == errorAlreadyOnScanning
      ensures this.statusScript == statusScript && this.transmitScript == transmitScript
      ensures statusCursor == 0 && transmitCursor == 0
      ensures this.isEnabled == isEnabled && log == []
    {
      this.success := success;
      this.errorAlreadyOnScanning := errorAlreadyOnScanning;
      this.statusScript := statusScript;
      this.transmitScript := transmitScript;
      statusCursor, transmitCursor := 0, 0;
      this.isEnabled := isEnabled;
      log := [];
    }

    /** The status the next status-returning call will answer with, or the k-th after it. */
    function PendingStatus(k: nat): int
      reads this
    {
      statusScript(statusCursor + k)
    }

    /** The result the k-th `transmit` from now will answer with. */
    function PendingTransmit(k: nat): TransmitResult
      reads this
    {
      transmitScript(transmitCursor + k)
    }

    /** `connect`, `disconnect`, `startScan`, `stopScan`, `BBextNfcCarrierOn`, `BBextNfcCarrierOff`. */
    method Send(request: Request) returns (status: int)
      modifies this
      ensures status == old(PendingStatus(0))
      ensures statusCursor == old(statusCursor) + 1 && log == old(log) + [Sent(request)]
      ensures transmitCursor == old(transmitCursor) && isEnabled == old(isEnabled)
    {
      status := statusScript(statusCursor);
      statusCursor := statusCursor + 1;
      log := log + [Sent(request)];
    }

    /** `enable(on)`. */
    method SetEnabled(on: bool)
      modifies this
      ensures isEnabled == on && log == old(log) + [Enabled(on)]
      ensures statusCursor == old(statusCursor) && transmitCursor == old(transmitCursor)
    {
      isEnabled := on;
      log := log + [Enabled(on)];
    }

    /** The `cardTypeForScan` setter. */
    method SetCardTypeForScan(mask: bv32)
      modifies this
      ensures log == old(log) + [ScanMaskSet(mask)]
      ensures statusCursor == old(statusCursor) && transmitCursor == old(transmitCursor)
      ensures isEnabled == old(isEnabled)
    {
      log := log + [ScanMaskSet(mask)];
    }

    /** `transmit(apdu)`. */
    method Transmit(apdu: seq<bv8>) returns (r: TransmitResult)
      modifies this
      ensures r == old(PendingTransmit(0))
      ensures transmitCursor == old(transmitCursor) + 1 && log == old(log) + [Transmitted(apdu)]
      ensures statusCursor == old(statusCursor) && isEnabled == old(isEnabled)
    {
      r := transmitScript(transmitCursor);
      transmitCursor := transmitCursor + 1;
      log := log + [Transmitted(apdu)];
    }

    /** `ecp.setConfiguration(mode, payload)`. */
    method EcpSetConfiguration(mode: VasupMode, payload: seq<bv8>)
      modifies this
      ensures log == old(log) + [EcpConfigured(mode, payload)]
      ensures statusCursor == old(statusCursor) && transmitCursor == old(transmitCursor)
      ensures isEnabled == old(isEnabled)
    {
      log := log + [EcpConfigured(mode, payload)];
    }

    /** `ecp.clearConfiguration()`. */
    method EcpClearConfiguration()
      modifies this
      ensures log == old(log) + [EcpCleared]
      ensures statusCursor == old(statusCursor) && transmitCursor == old(transmitCursor)
      ensures isEnabled == old(isEnabled)
    {
      log := log + [EcpCleared];
    }
  }
}
