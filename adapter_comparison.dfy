/**
 * Where the two adapters part ways on the same call and the same polling state: the
 * card reader adapter deactivates with AND-NOT and checks before it changes anything,
 * the contactless reader adapter deactivates with XOR and ORs in the base bit first.
 */
module AdapterComparison {
  import opened Wrappers
  import opened ReaderSession
  import P = BluebirdContactlessProtocols
  import S = BluebirdSupportContactlessProtocols
  import CardReaderPolling
  import ContactlessPolling
  import BitMasks

  /** Deactivating ISO_14443_4_A while its bit is off: a no-op in one adapter, an activation in the other. */
  lemma DeactivateInactiveDisagrees(s: PollingState, ecpAvailable: bool)
    requires s.pollingProtocols & 0x01 == 0
    ensures CardReaderPolling.Deactivate(s, "ISO_14443_4_A", ecpAvailable) == Step(Pass, s, [])
    ensures ContactlessPolling.Handle(s, "ISO_14443_4_A", ContactlessPolling.Deactivate, ecpAvailable)
              == Step(Pass, s.(pollingProtocols := BitMasks.Set(s.pollingProtocols, 0x01)), [])
  {
    P.ValueOfName(P.Iso14443_4A);
    S.ValueOfName(S.Iso14443_4A);
    BitMasks.ClearIsIdentityIffClear(s.pollingProtocols, 0x01);
    BitMasks.ToggleSetsClearBits(s.pollingProtocols, 0x01);
  }

  /** Without a payload both adapters refuse A_SKY_ECP, but only the card reader adapter leaves the mask alone. */
  lemma RefusedSkyEcpActivationDisagrees(s: PollingState)
    requires s.vasupPayload.None? && s.vasupMode.None?
    ensures CardReaderPolling.Activate(s, "ISO_14443_4_A_SKY_ECP", true)
              == Step(Fail(IllegalState(VasupPayloadNotSet)), s, [])
    ensures ContactlessPolling.Handle(s, "ISO_14443_4_A_SKY_ECP", ContactlessPolling.Activate, true)
              == Step(Fail(IllegalState(VasupPayloadNotSet)),
                      s.(pollingProtocols := BitMasks.Set(s.pollingProtocols, 0x01)), [])
  {
    P.ValueOfName(P.Iso14443_4ASkyEcp);
    S.ValueOfName(S.Iso14443_4ASkyEcp);
  }
}
