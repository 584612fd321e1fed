# Bluebird contactless reader session, in Dafny

A model of the contactless reader session logic of the Bluebird NFC reader plugin for
the Keyple card terminal framework. It covers:

- the three protocol enums that map protocol names to polling bit values and back
  (`fromValue`, `valueOf`);
- the `Tag` value delivered by a discovery broadcast, with its `equals` and `hashCode`;
- the two contactless reader adapters, kept apart because they behave differently:
  - `BluebirdCardReaderAdapter` deactivates a plain protocol with AND-NOT, checks every ECP
    precondition before changing anything, and only clears a flag on close;
  - `BluebirdContactlessReaderAdapter` deactivates with XOR, ORs the base protocol's bit
    into the mask before it checks the ECP preconditions, and disconnects on close.

Each adapter is a class whose fields the reader API calls update in place. Its polling
configuration (mask, VASUP payload, VASUP mode) is also described by functions on a
`PollingState` value (modules `CardReaderPolling` and `ContactlessPolling`), and each
configuration method ensures that its new state, its outcome and the ECP calls it made are
those of the function. The properties are proved about the functions.

The vendor `ExtNfcReader` is the class `ExtNfc.NfcReader`, a scripted transport:

- each status-returning call answers with the next value of a status script;
- each `transmit` answers with the next value of a transmit script;
- every call is appended to a ghost log.

The Android API level is a constructor argument; SKY ECP is available from level 28.
The polling mask is a `bv32`, like Kotlin's `Int`.

Modules: `Wrappers`, `Lookup` (the first-match search behind every `fromValue`),
`PluginContactlessProtocols` (the 8-value enum of `plugin/`), `BluebirdContactlessProtocols`
(7 values), `BluebirdSupportContactlessProtocols` (5 values), `Tags`, `ExtNfc`, `BitMasks`,
`ReaderSession` (what both adapters share), `CardReaderPolling`, `CardReader`,
`ContactlessPolling`, `ContactlessReader` and `AdapterComparison`.

Three behaviours of the code that are easy to get wrong:

- `transmitApdu` does not check that the channel is open;
- `BluebirdContactlessReaderAdapter` deactivates a plain protocol by flipping its bit, not
  by clearing it;
- a refused ECP activation in `BluebirdContactlessReaderAdapter` has already changed the mask.

## Model

| member | source | states |
|---|---|---|
| Lookup.IndexOf | plugin/src/main/kotlin/org/calypsonet/keyple/plugin/bluebird/BluebirdContactlessProtocols.kt:83-91 | the index found is the first position whose key matches, and none means no position matches |
| Lookup.FirstMatch | plugin/src/main/kotlin/org/calypsonet/keyple/plugin/bluebird/BluebirdContactlessProtocols.kt:83-91 | the constant returned has the key and lies in the table; none exactly when no constant has the key |
| Lookup.FirstMatchOfKey | plugin/src/main/kotlin/org/calypsonet/keyple/plugin/bluebird/BluebirdContactlessProtocols.kt:84-88 | with distinct keys, the first match for a constant's key is that constant |
| PluginContactlessProtocols.Bits | plugin/src/main/kotlin/org/calypsonet/keyple/plugin/bluebird/BluebirdContactlessProtocols.kt:29-80 | the 32-bit word of each constant equals its `getValue()` |
| PluginContactlessProtocols.FromValue | plugin/src/main/kotlin/org/calypsonet/keyple/plugin/bluebird/BluebirdContactlessProtocols.kt:82-91 | a result has the requested value; null exactly when no constant has it |
| PluginContactlessProtocols.TechValuesDistinct | plugin/src/main/kotlin/org/calypsonet/keyple/plugin/bluebird/BluebirdContactlessProtocols.kt:29-78 | the eight tech values are pairwise distinct |
| PluginContactlessProtocols.RoundTrip | plugin/src/main/kotlin/org/calypsonet/keyple/plugin/bluebird/BluebirdContactlessProtocols.kt:80-91 | `fromValue(p.getValue()) == p` for all eight constants |
| PluginContactlessProtocols.FromValueUnlisted | plugin/src/main/kotlin/org/calypsonet/keyple/plugin/bluebird/BluebirdContactlessProtocols.kt:83-91 | `fromValue(v)` is null exactly when v is none of the eight values (so for -1, 0x40, 0x80) |
| PluginContactlessProtocols.SkyEcpValue | plugin/src/main/kotlin/org/calypsonet/keyple/plugin/bluebird/BluebirdContactlessProtocols.kt:29-50 | each ECP value is 0x80 OR its base protocol's value, and the base value lacks bit 0x80 |
| PluginContactlessProtocols.PlainBitsDisjoint | plugin/src/main/kotlin/org/calypsonet/keyple/plugin/bluebird/BluebirdContactlessProtocols.kt:29-78 | each non-ECP value is nonzero with exactly one bit set (`b & (b - 1) == 0`), and two different ones share no bit |
| PluginContactlessProtocols.MaskFromHasBit | plugin/src/main/kotlin/org/calypsonet/keyple/plugin/bluebird/BluebirdContactlessProtocols.kt:29-78 | a non-ECP protocol's bit is in the OR of a list of non-ECP protocols filtered by a set exactly when it is listed and in the set |
| PluginContactlessProtocols.MaskOfHasBit | plugin/src/main/kotlin/org/calypsonet/keyple/plugin/bluebird/BluebirdContactlessProtocols.kt:29-78 | a non-ECP protocol's bit is in the OR of a set of protocols exactly when it belongs to the set |
| PluginContactlessProtocols.MaskOfDeterminesSet | plugin/src/main/kotlin/org/calypsonet/keyple/plugin/bluebird/BluebirdContactlessProtocols.kt:29-78 | two sets of non-ECP protocols with the same OR mask are equal |
| BluebirdContactlessProtocols.Bits | bluebird-plugin/src/main/kotlin/org/calypsonet/keyple/plugin/bluebird/BluebirdContactlessProtocols.kt:29-73 | the 32-bit word of each constant equals its `getValue()` |
| BluebirdContactlessProtocols.FromValue | bluebird-plugin/src/main/kotlin/org/calypsonet/keyple/plugin/bluebird/BluebirdContactlessProtocols.kt:75-84 | a result has the requested value; null exactly when no constant has it |
| BluebirdContactlessProtocols.ValueOf | bluebird-plugin/src/main/kotlin/org/calypsonet/keyple/plugin/bluebird/BluebirdCardReaderAdapter.kt:140-147 | a result carries the requested name; none exactly when no constant has it (where Kotlin throws) |
| BluebirdContactlessProtocols.TechValuesDistinct | bluebird-plugin/src/main/kotlin/org/calypsonet/keyple/plugin/bluebird/BluebirdContactlessProtocols.kt:29-71 | the seven tech values are pairwise distinct |
| BluebirdContactlessProtocols.NamesDistinct | bluebird-plugin/src/main/kotlin/org/calypsonet/keyple/plugin/bluebird/BluebirdContactlessProtocols.kt:29-71 | the seven names are pairwise distinct |
| BluebirdContactlessProtocols.RoundTrip | bluebird-plugin/src/main/kotlin/org/calypsonet/keyple/plugin/bluebird/BluebirdContactlessProtocols.kt:73-84 | `fromValue(p.getValue()) == p` for all seven constants |
| BluebirdContactlessProtocols.ValueOfName | bluebird-plugin/src/main/kotlin/org/calypsonet/keyple/plugin/bluebird/BluebirdContactlessProtocols.kt:29-71 | `valueOf(p.name) == p` for all seven constants |
| BluebirdContactlessProtocols.FromValueUnlisted | bluebird-plugin/src/main/kotlin/org/calypsonet/keyple/plugin/bluebird/BluebirdContactlessProtocols.kt:76-84 | `fromValue(v)` is null exactly when v is none of the seven values |
| BluebirdContactlessProtocols.MifareClassicUnlisted | bluebird-plugin/src/main/kotlin/org/calypsonet/keyple/plugin/bluebird/BluebirdContactlessProtocols.kt:64-84 | `fromValue(0x10)` is null: this generation has no MIFARE Classic |
| BluebirdContactlessProtocols.SkyEcpBit | bluebird-plugin/src/main/kotlin/org/calypsonet/keyple/plugin/bluebird/BluebirdContactlessProtocols.kt:29-71 | bit 0x80 is set exactly in the ECP values, each of which is 0x80 OR its plain base value |
| BluebirdSupportContactlessProtocols.Bits | bluebird-plugin/src/main/kotlin/org/calypsonet/keyple/plugin/bluebird/BluebirdSupportContactlessProtocols.kt:22-27 | the 32-bit word of each constant equals its `value` |
| BluebirdSupportContactlessProtocols.FromValue | bluebird-plugin/src/main/kotlin/org/calypsonet/keyple/plugin/bluebird/BluebirdSupportContactlessProtocols.kt:30-37 | a result has the requested value; null exactly when no constant has it |
| BluebirdSupportContactlessProtocols.ValueOf | bluebird-plugin/src/main/kotlin/org/calypsonet/keyple/plugin/bluebird/BluebirdContactlessReaderAdapter.kt:161-168 | a result carries the requested name; none exactly when no constant has it (where Kotlin throws) |
| BluebirdSupportContactlessProtocols.ValuesDistinct | bluebird-plugin/src/main/kotlin/org/calypsonet/keyple/plugin/bluebird/BluebirdSupportContactlessProtocols.kt:23-27 | the five values are pairwise distinct |
| BluebirdSupportContactlessProtocols.NamesDistinct | bluebird-plugin/src/main/kotlin/org/calypsonet/keyple/plugin/bluebird/BluebirdSupportContactlessProtocols.kt:23-27 | the five names are pairwise distinct |
| BluebirdSupportContactlessProtocols.RoundTrip | bluebird-plugin/src/main/kotlin/org/calypsonet/keyple/plugin/bluebird/BluebirdSupportContactlessProtocols.kt:30-37 | `fromValue(p.value) == p` for all five constants |
| BluebirdSupportContactlessProtocols.ValueOfName | bluebird-plugin/src/main/kotlin/org/calypsonet/keyple/plugin/bluebird/BluebirdSupportContactlessProtocols.kt:22-27 | `valueOf(p.name) == p` for all five constants |
| BluebirdSupportContactlessProtocols.FromValueUnlisted | bluebird-plugin/src/main/kotlin/org/calypsonet/keyple/plugin/bluebird/BluebirdSupportContactlessProtocols.kt:30-37 | `fromValue(v)` is null exactly when v is none of the five values |
| BluebirdSupportContactlessProtocols.NewerValuesUnlisted | bluebird-plugin/src/main/kotlin/org/calypsonet/keyple/plugin/bluebird/BluebirdSupportContactlessProtocols.kt:30-37 | 0x08, 0x10 and 0x20 are unknown to the legacy enum |
| BluebirdSupportContactlessProtocols.SkyEcpBit | bluebird-plugin/src/main/kotlin/org/calypsonet/keyple/plugin/bluebird/BluebirdSupportContactlessProtocols.kt:23-26 | bit 0x80 is set exactly in the ECP values, each of which is 0x80 OR its plain base value |
| Tags.Equals | bluebird-plugin/src/main/kotlin/org/calypsonet/keyple/plugin/bluebird/Tag.kt:23-36 | two tags are equal exactly when protocols match and the data are both null or both present with the same bytes |
| Tags.EqualsReflexive | bluebird-plugin/src/main/kotlin/org/calypsonet/keyple/plugin/bluebird/Tag.kt:24 | every tag equals itself |
| Tags.EqualsSymmetric | bluebird-plugin/src/main/kotlin/org/calypsonet/keyple/plugin/bluebird/Tag.kt:23-36 | `a.equals(b)` exactly when `b.equals(a)` |
| Tags.DifferentProtocolsNeverEqual | bluebird-plugin/src/main/kotlin/org/calypsonet/keyple/plugin/bluebird/Tag.kt:29 | tags with different protocols are never equal |
| Tags.EqualsOnData | bluebird-plugin/src/main/kotlin/org/calypsonet/keyple/plugin/bluebird/Tag.kt:30-35 | with the same protocol, tags are equal exactly when both data are null or both are present with equal contents |
| Tags.ToInt32 | bluebird-plugin/src/main/kotlin/org/calypsonet/keyple/plugin/bluebird/Tag.kt:38-42 | the result is a 32-bit integer congruent to the input modulo 2^32 (Kotlin's `Int` overflow) |
| Tags.SignedByte | bluebird-plugin/src/main/kotlin/org/calypsonet/keyple/plugin/bluebird/Tag.kt:40 | a byte read as Kotlin's signed `Byte`: in -128..127 and congruent to the unsigned value |
| Tags.ContentHash | bluebird-plugin/src/main/kotlin/org/calypsonet/keyple/plugin/bluebird/Tag.kt:40 | `contentHashCode` of a byte array is a 32-bit integer |
| Tags.HashCode | bluebird-plugin/src/main/kotlin/org/calypsonet/keyple/plugin/bluebird/Tag.kt:38-42 | `hashCode` is a 32-bit integer |
| Tags.EqualTagsHaveEqualHashes | bluebird-plugin/src/main/kotlin/org/calypsonet/keyple/plugin/bluebird/Tag.kt:23-42 | equal tags have equal hash codes, whatever hash the enum constant carries |
| Tags.NullAndEmptyDataHashApart | bluebird-plugin/src/main/kotlin/org/calypsonet/keyple/plugin/bluebird/Tag.kt:38-42 | null data and empty data hash differently for the same protocol |
| ReaderSession.SetSkyEcpVasupPayload | bluebird-plugin/src/main/kotlin/org/calypsonet/keyple/plugin/bluebird/BluebirdCardReaderAdapter.kt:66-72 | below API 28 `UnsupportedOperation`; a payload outside 5..20 bytes is an illegal argument; only success stores the payload, and nothing else changes |
| ReaderSession.CheckTransmitResult | bluebird-plugin/src/main/kotlin/org/calypsonet/keyple/plugin/bluebird/BluebirdCardReaderAdapter.kt:118-126 | the response is accepted exactly when data are present and at most 256 bytes long, and is then returned unchanged; otherwise a `CardIOException` |
| ReaderSession.ScanRequests | bluebird-plugin/src/main/kotlin/org/calypsonet/keyple/plugin/bluebird/BluebirdCardReaderAdapter.kt:251-274 | carrier-on failure sends nothing else; otherwise, unless the start answers "already scanning", exactly one start is sent and the scan runs when it answers SUCCESS; a stop is sent only after "already scanning"; a failed stop ends with carrier-on, start, stop and no scan; a second start only after a successful stop; the scan runs exactly when the last status read after a start is SUCCESS |
| ReaderSession.RestartScan | bluebird-plugin/src/main/kotlin/org/calypsonet/keyple/plugin/bluebird/BluebirdCardReaderAdapter.kt:262-267 | one stop, and a start only if the stop answered SUCCESS; the status is the last one read |
| ReaderSession.SendScanRequests | bluebird-plugin/src/main/kotlin/org/calypsonet/keyple/plugin/bluebird/BluebirdCardReaderAdapter.kt:255-271 | the calls sent and the running verdict are those of `ScanRequests` over the next four statuses |
| CardReaderPolling.ActivateSkyEcp | bluebird-plugin/src/main/kotlin/org/calypsonet/keyple/plugin/bluebird/BluebirdCardReaderAdapter.kt:160-175 | below API 28 `UnsupportedOperation`; then the opposite VASUP mode, then a missing payload are `IllegalState`; a refusal changes nothing; success records the mode, configures the ECP interface once and ORs in the base bit (0x01 or 0x02) |
| CardReaderPolling.ActivateNamed | bluebird-plugin/src/main/kotlin/org/calypsonet/keyple/plugin/bluebird/BluebirdCardReaderAdapter.kt:149-179 | unknown names, ST25/SRT512 and Mifare Ultralight are illegal arguments and change nothing; A, B and B Prime succeed with the state whose only change is their bit ORed into the mask, and no ECP call; ECP names follow `ActivateSkyEcp` |
| CardReaderPolling.ActivateSetsBaseBit | bluebird-plugin/src/main/kotlin/org/calypsonet/keyple/plugin/bluebird/BluebirdCardReaderAdapter.kt:150-175 | a successful activation ORs in the base protocol's bit, never an ECP value |
| CardReaderPolling.ActivatePreservesValid | bluebird-plugin/src/main/kotlin/org/calypsonet/keyple/plugin/bluebird/BluebirdCardReaderAdapter.kt:149-179 | activation keeps the payload valid, a mode only with a payload, and the mask within A, B and B Prime |
| CardReaderPolling.PlainBitKeepsMask | bluebird-plugin/src/main/kotlin/org/calypsonet/keyple/plugin/bluebird/BluebirdCardReaderAdapter.kt:150-159 | ORing in or clearing a plain bit keeps the mask within the three plain bits |
| CardReaderPolling.DeactivateNamed | bluebird-plugin/src/main/kotlin/org/calypsonet/keyple/plugin/bluebird/BluebirdCardReaderAdapter.kt:181-201 | refusals change nothing; plain names touch only the mask; an ECP name needs API 28, then clears the ECP configuration and the mode and leaves the mask |
| CardReaderPolling.DeactivateClearsOnlyItsBit | bluebird-plugin/src/main/kotlin/org/calypsonet/keyple/plugin/bluebird/BluebirdCardReaderAdapter.kt:182-191 | deactivating a plain protocol turns its bit off and keeps every other bit |
| CardReaderPolling.DeactivatePreservesValid | bluebird-plugin/src/main/kotlin/org/calypsonet/keyple/plugin/bluebird/BluebirdCardReaderAdapter.kt:181-201 | deactivation keeps the polling state well formed |
| CardReaderPolling.SkyEcpPollsWithBaseBit | bluebird-plugin/src/main/kotlin/org/calypsonet/keyple/plugin/bluebird/BluebirdCardReaderAdapter.kt:160-175 | a successful A_SKY_ECP (B_SKY_ECP) activation gives the same mask as activating A (B) |
| CardReaderPolling.VasupModesExclusive | bluebird-plugin/src/main/kotlin/org/calypsonet/keyple/plugin/bluebird/BluebirdCardReaderAdapter.kt:160-175 | once A_SKY_ECP is active, B_SKY_ECP is refused for the VASUP A mode, and accepted after A_SKY_ECP is deactivated |
| CardReaderPolling.PayloadRequiredBeforeSkyEcp | bluebird-plugin/src/main/kotlin/org/calypsonet/keyple/plugin/bluebird/BluebirdCardReaderAdapter.kt:168-175 | without a payload B_SKY_ECP is refused; after a valid payload it is accepted |
| CardReaderPolling.ActivateThenDeactivate | bluebird-plugin/src/main/kotlin/org/calypsonet/keyple/plugin/bluebird/BluebirdCardReaderAdapter.kt:150-191 | activate-then-deactivate of a plain protocol clears its bit, so it restores the state exactly when the bit was off |
| CardReaderPolling.DeactivateThenActivate | bluebird-plugin/src/main/kotlin/org/calypsonet/keyple/plugin/bluebird/BluebirdCardReaderAdapter.kt:150-191 | deactivate-then-activate of a plain protocol sets its bit and changes nothing else |
| CardReaderPolling.DeactivateIdempotent | bluebird-plugin/src/main/kotlin/org/calypsonet/keyple/plugin/bluebird/BluebirdCardReaderAdapter.kt:181-201 | deactivating twice is deactivating once, for any name |
| CardReaderPolling.KnownButNotConfigurable | bluebird-plugin/src/main/kotlin/org/calypsonet/keyple/plugin/bluebird/BluebirdCardReaderAdapter.kt:140-201 | ST25/SRT512 and Mifare Ultralight are supported names, yet both calls refuse them and change nothing |
| CardReader.BluebirdCardReaderAdapter.constructor | bluebird-plugin/src/main/kotlin/org/calypsonet/keyple/plugin/bluebird/BluebirdCardReaderAdapter.kt:50-62 | ECP availability is API level >= 28; flags off, no protocol, no data, empty polling state |
| CardReader.BluebirdCardReaderAdapter.SetSkyEcpVasupPayload | bluebird-plugin/src/main/kotlin/org/calypsonet/keyple/plugin/bluebird/BluebirdCardReaderAdapter.kt:66-72 | outcome and new state are those of `ReaderSession.SetSkyEcpVasupPayload` |
| CardReader.BluebirdCardReaderAdapter.ActivatePlain | bluebird-plugin/src/main/kotlin/org/calypsonet/keyple/plugin/bluebird/BluebirdCardReaderAdapter.kt:150-159 | the mask becomes that of `CardReaderPolling.ActivateNamed` |
| CardReader.BluebirdCardReaderAdapter.ActivateSkyEcp | bluebird-plugin/src/main/kotlin/org/calypsonet/keyple/plugin/bluebird/BluebirdCardReaderAdapter.kt:160-175 | outcome, new polling state and ECP calls are those of `CardReaderPolling.ActivateNamed`; no other reader call |
| CardReader.BluebirdCardReaderAdapter.ActivateNamed | bluebird-plugin/src/main/kotlin/org/calypsonet/keyple/plugin/bluebird/BluebirdCardReaderAdapter.kt:149-179 | outcome, new polling state and ECP calls are those of `CardReaderPolling.ActivateNamed` |
| CardReader.BluebirdCardReaderAdapter.ActivateProtocol | bluebird-plugin/src/main/kotlin/org/calypsonet/keyple/plugin/bluebird/BluebirdCardReaderAdapter.kt:149-179 | outcome, new polling state and ECP calls are those of `CardReaderPolling.Activate` |
| CardReader.BluebirdCardReaderAdapter.DeactivatePlain | bluebird-plugin/src/main/kotlin/org/calypsonet/keyple/plugin/bluebird/BluebirdCardReaderAdapter.kt:182-191 | the mask becomes that of `CardReaderPolling.DeactivateNamed` |
| CardReader.BluebirdCardReaderAdapter.DeactivateSkyEcp | bluebird-plugin/src/main/kotlin/org/calypsonet/keyple/plugin/bluebird/BluebirdCardReaderAdapter.kt:192-197 | outcome, new polling state and ECP calls are those of `CardReaderPolling.DeactivateNamed` |
| CardReader.BluebirdCardReaderAdapter.DeactivateNamed | bluebird-plugin/src/main/kotlin/org/calypsonet/keyple/plugin/bluebird/BluebirdCardReaderAdapter.kt:181-201 | outcome, new polling state and ECP calls are those of `CardReaderPolling.DeactivateNamed` |
| CardReader.BluebirdCardReaderAdapter.DeactivateProtocol | bluebird-plugin/src/main/kotlin/org/calypsonet/keyple/plugin/bluebird/BluebirdCardReaderAdapter.kt:181-201 | outcome, new polling state and ECP calls are those of `CardReaderPolling.Deactivate` |
| CardReader.BluebirdCardReaderAdapter.IsCurrentProtocol | bluebird-plugin/src/main/kotlin/org/calypsonet/keyple/plugin/bluebird/BluebirdCardReaderAdapter.kt:203-215 | true exactly when the name is the current protocol's, or an ECP name whose base is the current protocol; false for unknown names |
| CardReader.BluebirdCardReaderAdapter.IsProtocolSupported | bluebird-plugin/src/main/kotlin/org/calypsonet/keyple/plugin/bluebird/BluebirdCardReaderAdapter.kt:140-147 | true exactly for the seven constant names |
| CardReader.BluebirdCardReaderAdapter.OpenPhysicalChannel | bluebird-plugin/src/main/kotlin/org/calypsonet/keyple/plugin/bluebird/BluebirdCardReaderAdapter.kt:96-102 | one `connect`; a negative status is a `CardIOException` carrying it and leaves the flag; otherwise the flag is set |
| CardReader.BluebirdCardReaderAdapter.ClosePhysicalChannel | bluebird-plugin/src/main/kotlin/org/calypsonet/keyple/plugin/bluebird/BluebirdCardReaderAdapter.kt:104-106 | only the flag is cleared; the reader is not called |
| CardReader.BluebirdCardReaderAdapter.GetPowerOnData | bluebird-plugin/src/main/kotlin/org/calypsonet/keyple/plugin/bluebird/BluebirdCardReaderAdapter.kt:116 | the last card's data, empty when there is none |
| CardReader.BluebirdCardReaderAdapter.TransmitApdu | bluebird-plugin/src/main/kotlin/org/calypsonet/keyple/plugin/bluebird/BluebirdCardReaderAdapter.kt:118-126 | one `transmit`, whose result is checked by `CheckTransmitResult` |
| CardReader.BluebirdCardReaderAdapter.RegisterBroadcastReceiverIfNeeded | bluebird-plugin/src/main/kotlin/org/calypsonet/keyple/plugin/bluebird/BluebirdCardReaderAdapter.kt:230-239 | the receiver ends registered, and is registered with the host only if it was not already |
| CardReader.BluebirdCardReaderAdapter.UnregisterBroadcastReceiver | bluebird-plugin/src/main/kotlin/org/calypsonet/keyple/plugin/bluebird/BluebirdCardReaderAdapter.kt:241-249 | the receiver ends unregistered, and is unregistered with the host only if it was registered |
| CardReader.BluebirdCardReaderAdapter.StartScan | bluebird-plugin/src/main/kotlin/org/calypsonet/keyple/plugin/bluebird/BluebirdCardReaderAdapter.kt:251-274 | enable, hand over the mask, then the calls of `ScanRequests`; the receiver is registered (once) exactly when the scan runs |
| CardReader.BluebirdCardReaderAdapter.OnStopDetection | bluebird-plugin/src/main/kotlin/org/calypsonet/keyple/plugin/bluebird/BluebirdCardReaderAdapter.kt:79-92 | stop scan, carrier off, disconnect, disable, in that order, whatever their statuses; the receiver ends unregistered |
| CardReader.BluebirdCardReaderAdapter.OnUnregister | bluebird-plugin/src/main/kotlin/org/calypsonet/keyple/plugin/bluebird/BluebirdCardReaderAdapter.kt:132-138 | an enabled reader is disconnected and disabled, a disabled one is not called; the receiver ends unregistered |
| CardReader.BluebirdCardReaderAdapter.OnReceive | bluebird-plugin/src/main/kotlin/org/calypsonet/keyple/plugin/bluebird/BluebirdCardReaderAdapter.kt:276-289 | a detection closes the channel flag and records `fromValue(cardType)` (-1 when missing); only a known protocol updates the power-on data and notifies the host once; other broadcasts change nothing |
| CardReader.BluebirdCardReaderAdapter.PingCard | bluebird-plugin/src/main/kotlin/org/calypsonet/keyple/plugin/bluebird/BluebirdCardReaderAdapter.kt:295-301 | one ping APDU; when `transmitApdu` fails, one disconnect |
| CardReader.BluebirdCardReaderAdapter.WaitForCardRemoval | bluebird-plugin/src/main/kotlin/org/calypsonet/keyple/plugin/bluebird/BluebirdCardReaderAdapter.kt:291-304 | while a watch is running nothing happens; otherwise pings until the first failing probe or the stop, disconnects once after a failing probe, and ends with the flag off |
| CardReader.BluebirdCardReaderAdapter.WatchForRemoval | bluebird-plugin/src/main/kotlin/org/calypsonet/keyple/plugin/bluebird/BluebirdCardReaderAdapter.kt:293-303 | the loop: every probe before the last answered, the last failed or saw the stop, the log holds exactly that many pings (then one disconnect if the last failed) |
| CardReader.BluebirdCardReaderAdapter.StopWaitForCardRemoval | bluebird-plugin/src/main/kotlin/org/calypsonet/keyple/plugin/bluebird/BluebirdCardReaderAdapter.kt:306-308 | the waiting flag is off |
| ContactlessPolling.EveryProtocolHandled | bluebird-plugin/src/main/kotlin/org/calypsonet/keyple/plugin/bluebird/BluebirdContactlessReaderAdapter.kt:298-319 | every constant is plain or ECP, never both, so the `else` branch of `handleProtocol` cannot be taken |
| ContactlessPolling.PlainBitKeepsMask | bluebird-plugin/src/main/kotlin/org/calypsonet/keyple/plugin/bluebird/BluebirdContactlessReaderAdapter.kt:286-306 | applying either operation to a plain bit keeps the mask within the three plain bits |
| ContactlessPolling.HandleSkyEcpActivation | bluebird-plugin/src/main/kotlin/org/calypsonet/keyple/plugin/bluebird/BluebirdContactlessReaderAdapter.kt:321-349 | the base bit is ORed in whatever the outcome; the opposite mode, then a missing payload, are `IllegalState` with mode and ECP untouched; success configures the ECP interface once and records the mode |
| ContactlessPolling.HandleSkyEcpDeactivation | bluebird-plugin/src/main/kotlin/org/calypsonet/keyple/plugin/bluebird/BluebirdContactlessReaderAdapter.kt:351-354 | clears the ECP configuration and the mode; mask and payload unchanged |
| ContactlessPolling.HandleNamed | bluebird-plugin/src/main/kotlin/org/calypsonet/keyple/plugin/bluebird/BluebirdContactlessReaderAdapter.kt:298-319 | an unknown name is an illegal argument and changes nothing; plain names succeed applying the operation to their bit only; ECP names need API 28 (a refusal changes nothing), then activation or deactivation as above |
| ContactlessPolling.HandlePreservesValid | bluebird-plugin/src/main/kotlin/org/calypsonet/keyple/plugin/bluebird/BluebirdContactlessReaderAdapter.kt:298-354 | both calls keep the polling state well formed, refused ECP activations included |
| ContactlessPolling.UnknownNameChangesNothing | bluebird-plugin/src/main/kotlin/org/calypsonet/keyple/plugin/bluebird/BluebirdContactlessReaderAdapter.kt:298-299 | a name that is no constant's is refused before any state changes |
| ContactlessPolling.RefusedSkyEcpActivationStillPolls | bluebird-plugin/src/main/kotlin/org/calypsonet/keyple/plugin/bluebird/BluebirdContactlessReaderAdapter.kt:339-348 | an ECP activation refused for the mode or the payload leaves the base bit on, the mode unchanged and the ECP interface untouched |
| ContactlessPolling.DeactivateInactiveActivates | bluebird-plugin/src/main/kotlin/org/calypsonet/keyple/plugin/bluebird/BluebirdContactlessReaderAdapter.kt:286-306 | deactivating a plain protocol whose bit is off is the same as activating it, and changes the state |
| ContactlessPolling.DeactivateTwiceRestores | bluebird-plugin/src/main/kotlin/org/calypsonet/keyple/plugin/bluebird/BluebirdContactlessReaderAdapter.kt:293-306 | deactivating the same plain protocol twice restores the state |
| ContactlessPolling.ActivateIdempotent | bluebird-plugin/src/main/kotlin/org/calypsonet/keyple/plugin/bluebird/BluebirdContactlessReaderAdapter.kt:289-306 | activating a plain protocol twice is activating it once |
| ContactlessPolling.ActivateThenDeactivate | bluebird-plugin/src/main/kotlin/org/calypsonet/keyple/plugin/bluebird/BluebirdContactlessReaderAdapter.kt:286-306 | activate-then-deactivate clears the bit, so it restores the state exactly when the bit was off |
| ContactlessPolling.VasupModesExclusive | bluebird-plugin/src/main/kotlin/org/calypsonet/keyple/plugin/bluebird/BluebirdContactlessReaderAdapter.kt:321-354 | once A_SKY_ECP is active, B_SKY_ECP is refused for the VASUP A mode, and accepted after A_SKY_ECP is deactivated |
| ContactlessPolling.SkyEcpDeactivationKeepsBaseBit | bluebird-plugin/src/main/kotlin/org/calypsonet/keyple/plugin/bluebird/BluebirdContactlessReaderAdapter.kt:339-354 | ECP activation then deactivation leaves the base bit on and configures then clears the ECP interface |
| ContactlessReader.BluebirdContactlessReaderAdapter.constructor | bluebird-plugin/src/main/kotlin/org/calypsonet/keyple/plugin/bluebird/BluebirdContactlessReaderAdapter.kt:49-69 | ECP availability is API level >= 28; flags off, no tag, no data, empty polling state |
| ContactlessReader.BluebirdContactlessReaderAdapter.SetSkyEcpVasupPayload | bluebird-plugin/src/main/kotlin/org/calypsonet/keyple/plugin/bluebird/BluebirdContactlessReaderAdapter.kt:71-77 | outcome and new state are those of `ReaderSession.SetSkyEcpVasupPayload` |
| ContactlessReader.BluebirdContactlessReaderAdapter.ApplyPlain | bluebird-plugin/src/main/kotlin/org/calypsonet/keyple/plugin/bluebird/BluebirdContactlessReaderAdapter.kt:302-306 | the mask becomes `applyTo` of the operation, the mask and the protocol's value |
| ContactlessReader.BluebirdContactlessReaderAdapter.HandleSkyEcpActivation | bluebird-plugin/src/main/kotlin/org/calypsonet/keyple/plugin/bluebird/BluebirdContactlessReaderAdapter.kt:321-349 | outcome, new polling state and ECP calls are those of `ContactlessPolling.HandleSkyEcpActivation` |
| ContactlessReader.BluebirdContactlessReaderAdapter.HandleSkyEcpDeactivation | bluebird-plugin/src/main/kotlin/org/calypsonet/keyple/plugin/bluebird/BluebirdContactlessReaderAdapter.kt:351-354 | new polling state and ECP calls are those of `ContactlessPolling.HandleSkyEcpDeactivation` |
| ContactlessReader.BluebirdContactlessReaderAdapter.HandleNamed | bluebird-plugin/src/main/kotlin/org/calypsonet/keyple/plugin/bluebird/BluebirdContactlessReaderAdapter.kt:301-319 | outcome, new polling state and ECP calls are those of `ContactlessPolling.HandleNamed` |
| ContactlessReader.BluebirdContactlessReaderAdapter.HandleProtocol | bluebird-plugin/src/main/kotlin/org/calypsonet/keyple/plugin/bluebird/BluebirdContactlessReaderAdapter.kt:298-319 | outcome, new polling state and ECP calls are those of `ContactlessPolling.Handle` |
| ContactlessReader.BluebirdContactlessReaderAdapter.ActivateProtocol | bluebird-plugin/src/main/kotlin/org/calypsonet/keyple/plugin/bluebird/BluebirdContactlessReaderAdapter.kt:170-172 | `handleProtocol` with the OR operation |
| ContactlessReader.BluebirdContactlessReaderAdapter.DeactivateProtocol | bluebird-plugin/src/main/kotlin/org/calypsonet/keyple/plugin/bluebird/BluebirdContactlessReaderAdapter.kt:174-176 | `handleProtocol` with the XOR operation |
| ContactlessReader.BluebirdContactlessReaderAdapter.IsCurrentProtocol | bluebird-plugin/src/main/kotlin/org/calypsonet/keyple/plugin/bluebird/BluebirdContactlessReaderAdapter.kt:178-193 | true exactly when the name is the current tag's protocol, or an ECP name whose base is that protocol; false with no tag |
| ContactlessReader.BluebirdContactlessReaderAdapter.IsProtocolSupported | bluebird-plugin/src/main/kotlin/org/calypsonet/keyple/plugin/bluebird/BluebirdContactlessReaderAdapter.kt:161-168 | true exactly for the five constant names |
| ContactlessReader.BluebirdContactlessReaderAdapter.OpenPhysicalChannel | bluebird-plugin/src/main/kotlin/org/calypsonet/keyple/plugin/bluebird/BluebirdContactlessReaderAdapter.kt:114-120 | one `connect`; a negative status is a `CardIOException` carrying it and leaves the flag; otherwise the flag is set |
| ContactlessReader.BluebirdContactlessReaderAdapter.ClosePhysicalChannel | bluebird-plugin/src/main/kotlin/org/calypsonet/keyple/plugin/bluebird/BluebirdContactlessReaderAdapter.kt:122-125 | one `disconnect`, whatever its status, then the flag is cleared |
| ContactlessReader.BluebirdContactlessReaderAdapter.GetPowerOnData | bluebird-plugin/src/main/kotlin/org/calypsonet/keyple/plugin/bluebird/BluebirdContactlessReaderAdapter.kt:135 | the last tag's data, empty when there is none |
| ContactlessReader.BluebirdContactlessReaderAdapter.TransmitApdu | bluebird-plugin/src/main/kotlin/org/calypsonet/keyple/plugin/bluebird/BluebirdContactlessReaderAdapter.kt:137-145 | one `transmit`, whose result is checked by `CheckTransmitResult` |
| ContactlessReader.BluebirdContactlessReaderAdapter.RegisterBroadcastReceiverIfNeeded | bluebird-plugin/src/main/kotlin/org/calypsonet/keyple/plugin/bluebird/BluebirdContactlessReaderAdapter.kt:239-249 | the receiver ends registered, and is registered with the host only if it was not already |
| ContactlessReader.BluebirdContactlessReaderAdapter.UnregisterBroadcastReceiver | bluebird-plugin/src/main/kotlin/org/calypsonet/keyple/plugin/bluebird/BluebirdContactlessReaderAdapter.kt:251-259 | the receiver ends unregistered, and is unregistered with the host only if it was registered |
| ContactlessReader.BluebirdContactlessReaderAdapter.OnStartDetection | bluebird-plugin/src/main/kotlin/org/calypsonet/keyple/plugin/bluebird/BluebirdContactlessReaderAdapter.kt:261-284 | enable, hand over the mask, then the calls of `ScanRequests`; the receiver is registered (once) exactly when the scan runs |
| ContactlessReader.BluebirdContactlessReaderAdapter.OnStopDetection | bluebird-plugin/src/main/kotlin/org/calypsonet/keyple/plugin/bluebird/BluebirdContactlessReaderAdapter.kt:97-110 | stop scan, carrier off, disconnect, disable, in that order, whatever their statuses; the receiver ends unregistered |
| ContactlessReader.BluebirdContactlessReaderAdapter.OnUnregister | bluebird-plugin/src/main/kotlin/org/calypsonet/keyple/plugin/bluebird/BluebirdContactlessReaderAdapter.kt:151-159 | an enabled reader is disconnected and disabled, a disabled one is not called; the receiver ends unregistered |
| ContactlessReader.BluebirdContactlessReaderAdapter.OnTagDiscovered | bluebird-plugin/src/main/kotlin/org/calypsonet/keyple/plugin/bluebird/BluebirdContactlessReaderAdapter.kt:84-91 | the channel flag is cleared, the tag, its data and the discovered flag are recorded, and the host is notified once |
| ContactlessReader.BluebirdContactlessReaderAdapter.OnReceive | bluebird-plugin/src/main/kotlin/org/calypsonet/keyple/plugin/bluebird/BluebirdContactlessReaderAdapter.kt:356-366 | a detection with a known card type becomes a discovered tag with the card data; an unknown type or another broadcast changes nothing, not even the channel flag |
| AdapterComparison.DeactivateInactiveDisagrees | bluebird-plugin/src/main/kotlin/org/calypsonet/keyple/plugin/bluebird/BluebirdContactlessReaderAdapter.kt:293-306 | deactivating A while its bit is off is a no-op in the card reader adapter and sets the bit in the contactless reader adapter |
| AdapterComparison.RefusedSkyEcpActivationDisagrees | bluebird-plugin/src/main/kotlin/org/calypsonet/keyple/plugin/bluebird/BluebirdContactlessReaderAdapter.kt:339-348 | without a payload both adapters refuse A_SKY_ECP, but only the contactless reader adapter has already ORed in bit 0x01 |

## Left out

- `HexUtil.toHex` and `HexUtil.toByteArray`: power-on data are kept as bytes and the ping APDU is the byte sequence 00 C0 00 00 00; `getPowerOnData` therefore returns bytes, not hex text.
- A missing card data extra is modelled as absent data; what `HexUtil.toHex` does with a null array is not part of this model.
- The `NfcResultError` path of `onTagDiscovered` (re-throwing the error) is not modelled: `onReceive` only ever builds an `NfcResultSuccess`.
- The insertion callback (`setCallback`, a `lateinit` property) is the ghost event `CardInserted`; calling it before `setCallback` is not modelled.
- `getNfcErrorMessage`, Timber logging and the exception message texts: errors are datatype values that keep the rejected name or the status code.
- Vendor status codes are opaque integers; only SUCCESS and ERROR_ALREADY_ON_SCANNING are distinguished, as constants of the transport.
- `checkCardPresence`, `getName`, `isContactless` and `getCardRemovalMonitoringSleepDuration`: constant answers or an unconditional `UnsupportedOperationException`, with no state.
- The 100 ms delay between probes of the removal watch.
- CardReader.BluebirdCardReaderAdapter.WaitForCardRemoval: the stop from another thread is the parameter `stopAfter`, the probe during which it is observed. The method requires that some probe fails or a stop arrives; the source would loop forever otherwise.
- Tags.Equals: the `javaClass` comparison of `equals` is not modelled, since the other object is always a `Tag` or null here.
- Tags.HashCode: the hash of the enum constant (identity-based in the JVM) is a parameter.
- Concurrency between the discovery broadcast, the removal watch and direct calls: each method runs atomically.
- The `else` branch of `handleProtocol` and that of `handleSkyEcpActivation` cannot be reached with the five legacy constants (`ContactlessPolling.EveryProtocolHandled`), so they are not modelled.
