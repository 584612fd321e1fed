/**
 * The polling configuration rules of `BluebirdCardReaderAdapter` (`activateProtocol`,
 * `deactivateProtocol`) as functions on `PollingState`. This adapter checks every ECP
 * precondition before it changes anything, and deactivates a plain protocol by
 * clearing its bit.
 */
module CardReaderPolling {
  import opened Wrappers
  import opened ExtNfc
  import opened ReaderSession
  import P = BluebirdContactlessProtocols
  import BitMasks

  /** The protocols whose bit `activateProtocol` ORs in and `deactivateProtocol` clears. */
  predicate IsPlain(p: P.Protocol)
  {
    p == P.Iso14443_4A || p == P.Iso14443_4B || p == P.InnovatronBPrime
  }

  /** The protocols the two calls accept; ST25/SRT512 and Mifare Ultralight are refused. */
  predicate IsConfigurable(p: P.Protocol)
  {
    IsPlain(p) || P.IsSkyEcp(p)
  }

  /** ORing in or clearing a plain bit keeps the mask within the three plain bits. */
  lemma PlainBitKeepsMask(m: bv32, p: P.Protocol)
    requires IsPlain(p)
    ensures BitMasks.Within(m, 0x07) ==> BitMasks.Within(BitMasks.Set(m, P.Bits(p)), 0x07)
    ensures BitMasks.Within(m, 0x07) ==> BitMasks.Within(BitMasks.Clear(m, P.Bits(p)), 0x07)
  {
    BitMasks.SetStaysWithin(m, P.Bits(p), 0x07);
    BitMasks.ClearStaysWithin(m, P.Bits(p), 0x07);
  }

  function ModeOf(p: P.Protocol): VasupMode
  {
    if p == P.Iso14443_4BSkyEcp then VasupB else VasupA
  }

  /**
   * The ECP branch of `activateProtocol`: ECP availability, then a conflicting VASUP mode,
   * then a missing payload are refused before anything changes; on success the mode is
   * recorded, the ECP interface is configured and the base protocol's bit is ORed in.
   */
  function ActivateSkyEcp(s: PollingState, p: P.Protocol, ecpAvailable: bool): (r: Step)
    requires P.IsSkyEcp(p)
    ensures r.outcome.Pass? <==> ecpAvailable && s.vasupMode != Some(Opposite(ModeOf(p))) && s.vasupPayload.Some?
    ensures !ecpAvailable ==> r.outcome == Fail(UnsupportedOperation)
    ensures ecpAvailable && s.vasupMode == Some(Opposite(ModeOf(p))) ==>
              r.outcome == Fail(IllegalState(VasupModeSet(Opposite(ModeOf(p)))))
    ensures ecpAvailable && s.vasupMode != Some(Opposite(ModeOf(p))) && s.vasupPayload.None? ==>
              r.outcome == Fail(IllegalState(VasupPayloadNotSet))
    ensures r.outcome.Fail? ==> r.state == s && r.ecpCalls == []
    ensures r.outcome.Pass? ==>
              && r.state == s.(vasupMode := Some(ModeOf(p)),
                               pollingProtocols := BitMasks.Set(s.pollingProtocols, P.Bits(P.Base(p))))
              && r.ecpCalls == [EcpConfigured(ModeOf(p), s.vasupPayload.value)]
  {
    var mode := ModeOf(p);
    if !ecpAvailable then Step(Fail(UnsupportedOperation), s, [])
    else if s.vasupMode == Some(Opposite(mode)) then Step(Fail(IllegalState(VasupModeSet(Opposite(mode)))), s, [])
    else if s.vasupPayload.None? then Step(Fail(IllegalState(VasupPayloadNotSet)), s, [])
    else
      Step(Pass,
           s.(vasupMode := Some(mode), pollingProtocols := BitMasks.Set(s.pollingProtocols, P.Bits(P.Base(p)))),
           [EcpConfigured(mode, s.vasupPayload.value)])
  }

  /**
   * `activateProtocol(readerProtocol)`, where `q` is the constant named `readerProtocol`
   * (none when the name is not a constant's).
   */
  function ActivateNamed(s: PollingState, q: Option<P.Protocol>, readerProtocol: string, ecpAvailable: bool): (r: Step)
    // a refused call changes nothing and sends nothing to the ECP interface
    ensures r.outcome.Fail? ==> r.state == s && r.ecpCalls == []
    // unknown names, ST25/SRT512 and Mifare Ultralight are illegal arguments
    ensures (q.None? || !IsConfigurable(q.value)) ==> r.outcome == Fail(IllegalArgument(readerProtocol))
    ensures r.outcome.Pass? ==> q.Some? && IsConfigurable(q.value)
    ensures q.Some? && IsPlain(q.value) ==> r == Step(Pass, s.(pollingProtocols := BitMasks.Set(s.pollingProtocols, P.Bits(q.value))), [])
    ensures q.Some? && P.IsSkyEcp(q.value) ==> r == ActivateSkyEcp(s, q.value, ecpAvailable)
  {
    match q
    case Some(p) =>
      if IsPlain(p) then
        Step(Pass, s.(pollingProtocols := BitMasks.Set(s.pollingProtocols, P.Bits(p))), [])
      else if P.IsSkyEcp(p) then
        ActivateSkyEcp(s, p, ecpAvailable)
      else
        Step(Fail(IllegalArgument(readerProtocol)), s, [])
    case None =>
      Step(Fail(IllegalArgument(readerProtocol)), s, [])
  }

  function Activate(s: PollingState, readerProtocol: string, ecpAvailable: bool): Step
  {
    ActivateNamed(s, P.ValueOf(readerProtocol), readerProtocol, ecpAvailable)
  }

  /** A successful activation ORs in the bit of the base protocol, never an ECP value. */
  lemma ActivateSetsBaseBit(s: PollingState, q: Option<P.Protocol>, readerProtocol: string, ecpAvailable: bool)
    ensures var r := ActivateNamed(s, q, readerProtocol, ecpAvailable);
            r.outcome.Pass? ==> r.state.pollingProtocols == BitMasks.Set(s.pollingProtocols, P.Bits(P.Base(q.value)))
  {
  }

  /** Activation keeps the polling state well formed. */
  lemma ActivatePreservesValid(s: PollingState, q: Option<P.Protocol>, readerProtocol: string, ecpAvailable: bool)
    requires ValidPolling(s)
    ensures ValidPolling(ActivateNamed(s, q, readerProtocol, ecpAvailable).state)
  {
    if q.Some? && IsPlain(q.value) {
      PlainBitKeepsMask(s.pollingProtocols, q.value);
    } else if q.Some? && P.IsSkyEcp(q.value) {
      PlainBitKeepsMask(s.pollingProtocols, P.Base(q.value));
    }
  }

  /**
   * `deactivateProtocol(readerProtocol)`, where `q` is the constant named `readerProtocol`.
   * Either ECP name clears the ECP configuration and the VASUP mode but leaves the mask.
   */
  function DeactivateNamed(s: PollingState, q: Option<P.Protocol>, readerProtocol: string, ecpAvailable: bool): (r: Step)
    ensures r.outcome.Fail? ==> r.state == s && r.ecpCalls == []
    ensures (q.None? || !IsConfigurable(q.value)) ==> r.outcome == Fail(IllegalArgument(readerProtocol))
    ensures q.Some? && IsPlain(q.value) ==>
              r.outcome == Pass && r.ecpCalls == [] && r.state.vasupMode == s.vasupMode
              && r.state.vasupPayload == s.vasupPayload
    ensures q.Some? && P.IsSkyEcp(q.value) ==>
              && (r.outcome.Pass? <==> ecpAvailable)
              && (!ecpAvailable ==> r.outcome == Fail(UnsupportedOperation))
              && (ecpAvailable ==> r.state == s.(vasupMode := None) && r.ecpCalls == [EcpCleared])
  {
    match q
    case Some(p) =>
      if IsPlain(p) then
        Step(Pass, s.(pollingProtocols := BitMasks.Clear(s.pollingProtocols, P.Bits(p))), [])
      else if P.IsSkyEcp(p) then
        if !ecpAvailable then Step(Fail(UnsupportedOperation), s, [])
        else Step(Pass, s.(vasupMode := None), [EcpCleared])
      else
        Step(Fail(IllegalArgument(readerProtocol)), s, [])
    case None =>
      Step(Fail(IllegalArgument(readerProtocol)), s, [])
  }

  function Deactivate(s: PollingState, readerProtocol: string, ecpAvailable: bool): Step
  {
    DeactivateNamed(s, P.ValueOf(readerProtocol), readerProtocol, ecpAvailable)
  }

  /** Deactivating a plain protocol turns its bit off and keeps every other bit. */
  lemma DeactivateClearsOnlyItsBit(s: PollingState, p: P.Protocol, readerProtocol: string, ecpAvailable: bool)
    requires IsPlain(p)
    ensures var m := DeactivateNamed(s, Some(p), readerProtocol, ecpAvailable).state.pollingProtocols;
            m & P.Bits(p) == 0 && BitMasks.Set(m, P.Bits(p)) == BitMasks.Set(s.pollingProtocols, P.Bits(p))
  {
    BitMasks.ClearedBitsAreOff(s.pollingProtocols, P.Bits(p));
    BitMasks.ClearKeepsOthers(s.pollingProtocols, P.Bits(p));
  }

  /** Deactivation keeps the polling state well formed. */
  lemma DeactivatePreservesValid(s: PollingState, q: Option<P.Protocol>, readerProtocol: string, ecpAvailable: bool)
    requires ValidPolling(s)
    ensures ValidPolling(DeactivateNamed(s, q, readerProtocol, ecpAvailable).state)
  {
    if q.Some? && IsPlain(q.value) {
      PlainBitKeepsMask(s.pollingProtocols, q.value);
    }
  }

  /** Activating `A_SKY_ECP` sets the same mask bit as activating `A` (and likewise for B). */
  lemma SkyEcpPollsWithBaseBit(s: PollingState, p: P.Protocol)
    requires P.IsSkyEcp(p)
    requires Activate(s, P.Name(p), true).outcome.Pass?
    ensures Activate(s, P.Name(p), true).state.pollingProtocols
              == Activate(s, P.Name(P.Base(p)), true).state.pollingProtocols
  {
    P.ValueOfName(p);
    P.ValueOfName(P.Base(p));
    ActivateSetsBaseBit(s, Some(p), P.Name(p), true);
    ActivateSetsBaseBit(s, Some(P.Base(p)), P.Name(P.Base(p)), true);
  }

  /** Once A is in VASUP mode, B_SKY_ECP is refused until A_SKY_ECP is deactivated, then accepted. */
  lemma VasupModesExclusive(s: PollingState)
    requires ValidPolling(s)
    requires Activate(s, "ISO_14443_4_A_SKY_ECP", true).outcome.Pass?
    ensures var a := Activate(s, "ISO_14443_4_A_SKY_ECP", true).state;
            && Activate(a, "ISO_14443_4_B_SKY_ECP", true).outcome == Fail(IllegalState(VasupModeSet(VasupA)))
            && Activate(Deactivate(a, "ISO_14443_4_A_SKY_ECP", true).state, "ISO_14443_4_B_SKY_ECP", true).outcome == Pass
  {
    P.ValueOfName(P.Iso14443_4ASkyEcp);
    P.ValueOfName(P.Iso14443_4BSkyEcp);
    var a := ActivateSkyEcp(s, P.Iso14443_4ASkyEcp, true).state;
    assert a.vasupMode == Some(VasupA) && a.vasupPayload == s.vasupPayload;
    assert ActivateSkyEcp(a, P.Iso14443_4BSkyEcp, true).outcome == Fail(IllegalState(VasupModeSet(VasupA)));
    var d := a.(vasupMode := None);
    assert Deactivate(a, "ISO_14443_4_A_SKY_ECP", true).state == d;
    assert ActivateSkyEcp(d, P.Iso14443_4BSkyEcp, true).outcome == Pass;
  }

  /** With no payload, ECP activation is refused; after a valid payload it is accepted. */
  lemma PayloadRequiredBeforeSkyEcp(s: PollingState, payload: seq<bv8>)
    requires s.vasupPayload.None? && s.vasupMode.None?
    requires ValidPayload(payload)
    ensures Activate(s, "ISO_14443_4_B_SKY_ECP", true).outcome == Fail(IllegalState(VasupPayloadNotSet))
    ensures var t := SetSkyEcpVasupPayload(s, payload, true).state;
            Activate(t, "ISO_14443_4_B_SKY_ECP", true).outcome == Pass
  {
    P.ValueOfName(P.Iso14443_4BSkyEcp);
    assert ActivateSkyEcp(s, P.Iso14443_4BSkyEcp, true).outcome == Fail(IllegalState(VasupPayloadNotSet));
    var t := SetSkyEcpVasupPayload(s, payload, true).state;
    assert t == s.(vasupPayload := Some(payload));
    assert ActivateSkyEcp(t, P.Iso14443_4BSkyEcp, true).outcome == Pass;
  }

  /** For a plain protocol, activate-then-deactivate clears its bit, and so restores the mask exactly when it was clear. */
  lemma ActivateThenDeactivate(s: PollingState, p: P.Protocol)
    requires IsPlain(p)
    ensures var t := Deactivate(Activate(s, P.Name(p), true).state, P.Name(p), true).state;
            t == s.(pollingProtocols := BitMasks.Clear(s.pollingProtocols, P.Bits(p)))
            && (t == s <==> s.pollingProtocols & P.Bits(p) == 0)
  {
    P.ValueOfName(p);
    BitMasks.SetThenClear(s.pollingProtocols, P.Bits(p));
    BitMasks.ClearIsIdentityIffClear(s.pollingProtocols, P.Bits(p));
  }

  /** For a plain protocol, deactivate-then-activate sets its bit and changes nothing else. */
  lemma DeactivateThenActivate(s: PollingState, p: P.Protocol)
    requires IsPlain(p)
    ensures var t := Activate(Deactivate(s, P.Name(p), true).state, P.Name(p), true).state;
            t == s.(pollingProtocols := BitMasks.Set(s.pollingProtocols, P.Bits(p)))
  {
    P.ValueOfName(p);
    BitMasks.ClearKeepsOthers(s.pollingProtocols, P.Bits(p));
  }

  /** Deactivation is idempotent. */
  lemma DeactivateIdempotent(s: PollingState, readerProtocol: string, ecpAvailable: bool)
    ensures var t := Deactivate(s, readerProtocol, ecpAvailable).state;
            Deactivate(t, readerProtocol, ecpAvailable).state == t
  {
    var q := P.ValueOf(readerProtocol);
    if q.Some? && IsPlain(q.value) {
      BitMasks.ClearTwice(s.pollingProtocols, P.Bits(q.value));
    }
  }

  /** ST25/SRT512 and Mifare Ultralight are known names, yet neither call accepts them. */
  lemma KnownButNotConfigurable(s: PollingState, p: P.Protocol, ecpAvailable: bool)
    requires p == P.StmSrt512St25 || p == P.NxpMifareUltraLight
    ensures P.ValueOf(P.Name(p)) == Some(p)
    ensures Activate(s, P.Name(p), ecpAvailable) == Step(Fail(IllegalArgument(P.Name(p))), s, [])
    ensures Deactivate(s, P.Name(p), ecpAvailable) == Step(Fail(IllegalArgument(P.Name(p))), s, [])
  {
    P.ValueOfName(p);
  }
}
