/**
 * The five-constant legacy protocol enum of the `bluebird-plugin` module, used by the
 * contactless reader adapter and by `Tag`: polling values, `fromValue` and `valueOf`.
 */
module BluebirdSupportContactlessProtocols {
  import opened Wrappers
  import Lookup

  datatype Protocol =
    | Iso14443_4A
    | Iso14443_4ASkyEcp
    | Iso14443_4B
    | Iso14443_4BSkyEcp
    | InnovatronBPrime

  /** The constants in declaration order, as `values()` returns them. */
  const Values: seq<Protocol> := [
    Iso14443_4A, Iso14443_4ASkyEcp, Iso14443_4B, Iso14443_4BSkyEcp, InnovatronBPrime
  ]

  /** Position of each constant in `values()` (Kotlin's `ordinal`). */
  function Ordinal(p: Protocol): (i: nat)
    ensures i < |Values| && Values[i] == p
  {
    match p
    case Iso14443_4A => 0
    case Iso14443_4ASkyEcp => 1
    case Iso14443_4B => 2
    case Iso14443_4BSkyEcp => 3
    case InnovatronBPrime => 4
  }

  /** The constant's `name`. */
  function Name(p: Protocol): string
  {
    match p
    case Iso14443_4A => "ISO_14443_4_A"
    case Iso14443_4ASkyEcp => "ISO_14443_4_A_SKY_ECP"
    case Iso14443_4B => "ISO_14443_4_B"
    case Iso14443_4BSkyEcp => "ISO_14443_4_B_SKY_ECP"
    case InnovatronBPrime => "INNOVATRON_B_PRIME"
  }

  /** The `value` property of each constant. */
  function Value(p: Protocol): int
  {
    match p
    case Iso14443_4A => 0x01
    case Iso14443_4ASkyEcp => 0x81
    case Iso14443_4B => 0x02
    case Iso14443_4BSkyEcp => 0x82
    case InnovatronBPrime => 0x04
  }

  /** The value as a 32-bit polling-mask word (Kotlin's `Int`). */
  function Bits(p: Protocol): (b: bv32)
    ensures b as int == Value(p)
  {
    match p
    case Iso14443_4A => 0x01
    case Iso14443_4ASkyEcp => 0x81
    case Iso14443_4B => 0x02
    case Iso14443_4BSkyEcp => 0x82
    case InnovatronBPrime => 0x04
  }

  predicate IsSkyEcp(p: Protocol)
  {
    p == Iso14443_4ASkyEcp || p == Iso14443_4BSkyEcp
  }

  /** The plain protocol an ECP variant polls with (identity on plain protocols). */
  function Base(p: Protocol): Protocol
  {
    match p
    case Iso14443_4ASkyEcp => Iso14443_4A
    case Iso14443_4BSkyEcp => Iso14443_4B
    case _ => p
  }

  /** `fromValue`: the first constant, in declaration order, whose value is `value`. */
  function FromValue(value: int): (r: Option<Protocol>)
    ensures r.Some? ==> Value(r.value) == value
    ensures r.None? <==> forall p: Protocol :: Value(p) != value
  {
    assert forall p: Protocol :: Values[Ordinal(p)] == p;
    Lookup.FirstMatch(Values, Value, value)
  }

  /** Kotlin's `valueOf`: the constant with that name, or none (where Kotlin throws). */
  function ValueOf(name: string): (r: Option<Protocol>)
    ensures r.Some? ==> Name(r.value) == name
    ensures r.None? <==> forall p: Protocol :: Name(p) != name
  {
    assert forall p: Protocol :: Values[Ordinal(p)] == p;
    Lookup.FirstMatch(Values, Name, name)
  }

  lemma ValuesDistinct()
    ensures forall p: Protocol, q: Protocol :: Value(p) == Value(q) ==> p == q
  {
  }

  lemma NamesDistinct()
    ensures forall p: Protocol, q: Protocol :: Name(p) == Name(q) ==> p == q
  {
  }

  /** `fromValue(p.value) == p` for every constant. */
  lemma RoundTrip(p: Protocol)
    ensures FromValue(Value(p)) == Some(p)
  {
    ValuesDistinct();
    Lookup.FirstMatchOfKey(Values, Value, Ordinal(p));
  }

  /** `valueOf(p.name) == p` for every constant. */
  lemma ValueOfName(p: Protocol)
    ensures ValueOf(Name(p)) == Some(p)
  {
    NamesDistinct();
    Lookup.FirstMatchOfKey(Values, Name, Ordinal(p));
  }

  /** `fromValue` yields null exactly for the unlisted values. */
  lemma FromValueUnlisted(value: int)
    ensures FromValue(value).None? <==> value !in {0x01, 0x81, 0x02, 0x82, 0x04}
  {
    if value in {0x01, 0x81, 0x02, 0x82, 0x04} {
      var p :| Value(p) == value;
      RoundTrip(p);
    }
  }

  /** The values of the newer protocols (0x08, 0x10, 0x20) are unknown to this enum. */
  lemma NewerValuesUnlisted()
    ensures FromValue(0x08) == None && FromValue(0x10) == None && FromValue(0x20) == None
  {
    FromValueUnlisted(0x08);
    FromValueUnlisted(0x10);
    FromValueUnlisted(0x20);
  }

  /** Each ECP value is its base protocol's value with bit 0x80 added. */
  lemma SkyEcpBit(p: Protocol)
    ensures Bits(p) & 0x80 != 0 <==> IsSkyEcp(p)
    ensures IsSkyEcp(p) ==> Bits(p) == 0x80 | Bits(Base(p)) && !IsSkyEcp(Base(p))
  {
  }
}
