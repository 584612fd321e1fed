/**
 * The polling configuration rules of `BluebirdContactlessReaderAdapter`
 * (`activateProtocol` and `deactivateProtocol`, both through `handleProtocol`) as
 * functions on `PollingState`. Unlike the card reader adapter, this one deactivates a
 * plain protocol by flipping its bit (`xor`), and an ECP activation ORs in the base
 * protocol's bit before it checks the VASUP mode and payload.
 */
module ContactlessPolling {
  import opened Wrappers
  import opened ExtNfc
  import opened ReaderSession
  import S = BluebirdSupportContactlessProtocols
  import BitMasks

  /** `ProtocolOperation.Activate` / `ProtocolOperation.Deactivate`. */
  datatype ProtocolOperation = Activate | Deactivate

  /** `applyTo(currentValue, protocolValue)`: `or` for activation, `xor` for deactivation. */
  function ApplyTo(op: ProtocolOperation, currentValue: bv32, protocolValue: bv32): bv32
  {
    match op
    case Activate => BitMasks.Set(currentValue, protocolValue)
    case Deactivate => BitMasks.Toggle(currentValue, protocolValue)
  }

  /** The protocols whose value `handleProtocol` applies directly to the mask. */
  predicate IsPlain(p: S.Protocol)
  {
    p == S.Iso14443_4A || p == S.Iso14443_4B || p == S.InnovatronBPrime
  }

  /** Every constant is plain or ECP, so the `else` branch of `handleProtocol` is never taken. */
  lemma EveryProtocolHandled(p: S.Protocol)
    ensures IsPlain(p) != S.IsSkyEcp(p)
  {
  }

  /** Applying a plain protocol's value keeps the mask within the three plain bits. */
  lemma PlainBitKeepsMask(m: bv32, p: S.Protocol, op: ProtocolOperation)
    requires IsPlain(p)
    ensures BitMasks.Within(m, 0x07) ==> BitMasks.Within(ApplyTo(op, m, S.Bits(p)), 0x07)
  {
    BitMasks.SetStaysWithin(m, S.Bits(p), 0x07);
    BitMasks.ToggleStaysWithin(m, S.Bits(p), 0x07);
  }

  function ModeOf(p: S.Protocol): VasupMode
  {
    if p == S.Iso14443_4BSkyEcp then VasupB else VasupA
  }

  /**
   * `handleSkyEcpActivation(protocol)`: the base protocol's bit is ORed in first; then a
   * VASUP mode of the other kind, or a missing payload, is refused (the bit stays on);
   * otherwise the ECP interface is configured and the mode recorded.
   */
  function HandleSkyEcpActivation(s: PollingState, p: S.Protocol): (r: Step)
    requires S.IsSkyEcp(p)
    // the mask changes whatever the outcome
    ensures r.state.pollingProtocols == BitMasks.Set(s.pollingProtocols, S.Bits(S.Base(p)))
    ensures r.state.vasupPayload == s.vasupPayload
    ensures r.outcome.Pass? <==> s.vasupMode != Some(Opposite(ModeOf(p))) && s.vasupPayload.Some?
    ensures s.vasupMode == Some(Opposite(ModeOf(p))) ==>
              r.outcome == Fail(IllegalState(VasupModeSet(Opposite(ModeOf(p)))))
    ensures s.vasupMode != Some(Opposite(ModeOf(p))) && s.vasupPayload.None? ==>
              r.outcome == Fail(IllegalState(VasupPayloadNotSet))
    ensures r.outcome.Fail? ==> r.state.vasupMode == s.vasupMode && r.ecpCalls == []
    ensures r.outcome.Pass? ==>
              r.state.vasupMode == Some(ModeOf(p)) && r.ecpCalls == [EcpConfigured(ModeOf(p), s.vasupPayload.value)]
  {
    var mode := ModeOf(p);
    var t := s.(pollingProtocols := BitMasks.Set(s.pollingProtocols, S.Bits(S.Base(p))));
    if s.vasupMode == Some(Opposite(mode)) then Step(Fail(IllegalState(VasupModeSet(Opposite(mode)))), t, [])
    else if s.vasupPayload.None? then Step(Fail(IllegalState(VasupPayloadNotSet)), t, [])
    else Step(Pass, t.(vasupMode := Some(mode)), [EcpConfigured(mode, s.vasupPayload.value)])
  }

  /** `handleSkyEcpDeactivation()`: clear the ECP configuration and the VASUP mode; the mask stays. */
  function HandleSkyEcpDeactivation(s: PollingState): (r: Step)
    ensures r.outcome == Pass && r.ecpCalls == [EcpCleared]
    ensures r.state.vasupMode.None?
    ensures r.state.pollingProtocols == s.pollingProtocols && r.state.vasupPayload == s.vasupPayload
  {
    Step(Pass, s.(vasupMode := None), [EcpCleared])
  }

  /**
   * `handleProtocol(readerProtocol, operation)`, where `q` is the constant named
   * `readerProtocol` (none when `valueOf` throws).
   */
  function HandleNamed(s: PollingState, q: Option<S.Protocol>, readerProtocol: string,
                       op: ProtocolOperation, ecpAvailable: bool): (r: Step)
    // an unknown name is an illegal argument and changes nothing
    ensures q.None? ==> r == Step(Fail(IllegalArgument(readerProtocol)), s, [])
    // plain protocols always succeed and touch only the mask
    ensures q.Some? && IsPlain(q.value) ==>
              && r.outcome == Pass && r.ecpCalls == []
              && r.state == s.(pollingProtocols := ApplyTo(op, s.pollingProtocols, S.Bits(q.value)))
    // ECP needs API level 28, whichever the operation; a refusal here changes nothing
    ensures q.Some? && S.IsSkyEcp(q.value) && !ecpAvailable ==> r == Step(Fail(UnsupportedOperation), s, [])
    ensures q.Some? && S.IsSkyEcp(q.value) && ecpAvailable ==>
              r == (if op == Activate then HandleSkyEcpActivation(s, q.value) else HandleSkyEcpDeactivation(s))
    ensures r.state.vasupPayload == s.vasupPayload
  {
    match q
    case None => Step(Fail(IllegalArgument(readerProtocol)), s, [])
    case Some(p) =>
      if IsPlain(p) then
        Step(Pass, s.(pollingProtocols := ApplyTo(op, s.pollingProtocols, S.Bits(p))), [])
      else if !ecpAvailable then
        Step(Fail(UnsupportedOperation), s, [])
      else if op == Activate then
        HandleSkyEcpActivation(s, p)
      else
        HandleSkyEcpDeactivation(s)
  }

  function Handle(s: PollingState, readerProtocol: string, op: ProtocolOperation, ecpAvailable: bool): Step
  {
    HandleNamed(s, S.ValueOf(readerProtocol), readerProtocol, op, ecpAvailable)
  }

  /** `activateProtocol` and `deactivateProtocol` keep the polling state well formed, failures included. */
  lemma HandlePreservesValid(s: PollingState, q: Option<S.Protocol>, readerProtocol: string,
                             op: ProtocolOperation, ecpAvailable: bool)
    requires ValidPolling(s)
    ensures ValidPolling(HandleNamed(s, q, readerProtocol, op, ecpAvailable).state)
  {
    if q.Some? && IsPlain(q.value) {
      PlainBitKeepsMask(s.pollingProtocols, q.value, op);
    } else if q.Some? && S.IsSkyEcp(q.value) {
      PlainBitKeepsMask(s.pollingProtocols, S.Base(q.value), Activate);
    }
  }

  /** A name that is not a constant's is refused by both calls, and nothing changes. */
  lemma UnknownNameChangesNothing(s: PollingState, readerProtocol: string, op: ProtocolOperation, ecpAvailable: bool)
    requires forall p: S.Protocol :: S.Name(p) != readerProtocol
    ensures Handle(s, readerProtocol, op, ecpAvailable) == Step(Fail(IllegalArgument(readerProtocol)), s, [])
  {
  }

  /**
   * An ECP activation that is refused for a VASUP mode conflict or a missing payload
   * still leaves the base protocol's bit on.
   */
  lemma RefusedSkyEcpActivationStillPolls(s: PollingState, p: S.Protocol)
    requires S.IsSkyEcp(p)
    requires s.vasupMode == Some(Opposite(ModeOf(p))) || s.vasupPayload.None?
    ensures var r := Handle(s, S.Name(p), Activate, true);
            && r.outcome.Fail? && r.outcome.error.IllegalState?
            && r.state.pollingProtocols & S.Bits(S.Base(p)) == S.Bits(S.Base(p))
            && r.state.vasupMode == s.vasupMode && r.ecpCalls == []
  {
    S.ValueOfName(p);
    BitMasks.SetBitsAreOn(s.pollingProtocols, S.Bits(S.Base(p)));
    var r := HandleSkyEcpActivation(s, p);
    assert r.state.pollingProtocols == BitMasks.Set(s.pollingProtocols, S.Bits(S.Base(p)));
  }

  /**
   * Deactivating a plain protocol whose bit is off switches it on: deactivation of an
   * inactive protocol has the effect of its activation.
   */
  lemma DeactivateInactiveActivates(s: PollingState, p: S.Protocol)
    requires IsPlain(p)
    requires s.pollingProtocols & S.Bits(p) == 0
    ensures Handle(s, S.Name(p), Deactivate, true) == Handle(s, S.Name(p), Activate, true)
    ensures Handle(s, S.Name(p), Deactivate, true).state != s
  {
    S.ValueOfName(p);
    var m := s.pollingProtocols;
    var b := S.Bits(p);
    BitMasks.ToggleSetsClearBits(m, b);
    BitMasks.SetBitsAreOn(m, b);
  }

  /** Deactivating the same plain protocol twice restores the mask. */
  lemma DeactivateTwiceRestores(s: PollingState, p: S.Protocol)
    requires IsPlain(p)
    ensures Handle(Handle(s, S.Name(p), Deactivate, true).state, S.Name(p), Deactivate, true).state == s
  {
    S.ValueOfName(p);
    BitMasks.ToggleTwice(s.pollingProtocols, S.Bits(p));
  }

  /** Activating a plain protocol twice is activating it once. */
  lemma ActivateIdempotent(s: PollingState, p: S.Protocol)
    requires IsPlain(p)
    ensures var t := Handle(s, S.Name(p), Activate, true).state;
            Handle(t, S.Name(p), Activate, true).state == t
  {
    S.ValueOfName(p);
    BitMasks.SetTwice(s.pollingProtocols, S.Bits(p));
  }

  /**
   * For a plain protocol, activate-then-deactivate clears its bit, and so restores the
   * mask exactly when the bit was off before.
   */
  lemma ActivateThenDeactivate(s: PollingState, p: S.Protocol)
    requires IsPlain(p)
    ensures var t := Handle(Handle(s, S.Name(p), Activate, true).state, S.Name(p), Deactivate, true).state;
            t == s.(pollingProtocols := BitMasks.Clear(s.pollingProtocols, S.Bits(p)))
            && (t == s <==> s.pollingProtocols & S.Bits(p) == 0)
  {
    S.ValueOfName(p);
    BitMasks.SetThenToggle(s.pollingProtocols, S.Bits(p));
    BitMasks.ClearIsIdentityIffClear(s.pollingProtocols, S.Bits(p));
  }

  /** Once A is in VASUP mode, B_SKY_ECP is refused until A_SKY_ECP is deactivated, then accepted. */
  lemma VasupModesExclusive(s: PollingState)
    requires ValidPolling(s)
    requires Handle(s, "ISO_14443_4_A_SKY_ECP", Activate, true).outcome.Pass?
    ensures var a := Handle(s, "ISO_14443_4_A_SKY_ECP", Activate, true).state;
            && Handle(a, "ISO_14443_4_B_SKY_ECP", Activate, true).outcome == Fail(IllegalState(VasupModeSet(VasupA)))
            && Handle(Handle(a, "ISO_14443_4_A_SKY_ECP", Deactivate, true).state,
                      "ISO_14443_4_B_SKY_ECP", Activate, true).outcome == Pass
  {
    S.ValueOfName(S.Iso14443_4ASkyEcp);
    S.ValueOfName(S.Iso14443_4BSkyEcp);
    var a := HandleSkyEcpActivation(s, S.Iso14443_4ASkyEcp).state;
    assert a.vasupMode == Some(VasupA) && a.vasupPayload == s.vasupPayload;
    assert HandleSkyEcpActivation(a, S.Iso14443_4BSkyEcp).outcome == Fail(IllegalState(VasupModeSet(VasupA)));
    var d := a.(vasupMode := None);
    assert Handle(a, "ISO_14443_4_A_SKY_ECP", Deactivate, true).state == d;
    assert HandleSkyEcpActivation(d, S.Iso14443_4BSkyEcp).outcome == Pass;
  }

  /** ECP deactivation never touches the mask: the base bit an ECP activation set stays on. */
  lemma SkyEcpDeactivationKeepsBaseBit(s: PollingState, p: S.Protocol)
    requires S.IsSkyEcp(p)
    requires s.vasupPayload.Some? && s.vasupMode.None?
    ensures var a := Handle(s, S.Name(p), Activate, true);
            var d := Handle(a.state, S.Name(p), Deactivate, true);
            && a.outcome == Pass && d.outcome == Pass
            && d.state == s.(pollingProtocols := BitMasks.Set(s.pollingProtocols, S.Bits(S.Base(p))))
            && a.ecpCalls + d.ecpCalls == [EcpConfigured(ModeOf(p), s.vasupPayload.value), EcpCleared]
  {
    S.ValueOfName(p);
  }
}
