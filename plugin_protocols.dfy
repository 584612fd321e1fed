/**
 * The eight-constant protocol enum of the `plugin` module: each contactless protocol
 * carries the polling bit the vendor reader expects, and `fromValue` maps a card type
 * reported by the reader back to its protocol.
 */
module PluginContactlessProtocols {
  import opened Wrappers
  import Lookup

  datatype Protocol =
    | Iso14443_4A
    | Iso14443_4ASkyEcp
    | Iso14443_4B
    | Iso14443_4BSkyEcp
    | InnovatronBPrime
    | St25Srt512
    | MifareUltralight
    | MifareClassic1K

  /** The constants in declaration order, as `values()` returns them. */
  const Values: seq<Protocol> := [
    Iso14443_4A, Iso14443_4ASkyEcp, Iso14443_4B, Iso14443_4BSkyEcp,
    InnovatronBPrime, St25Srt512, MifareUltralight, MifareClassic1K
  ]

  /** `getValue()`: the tech value given to each constant. */
  function GetValue(p: Protocol): int
  {
    match p
    case Iso14443_4A => 0x01
    case Iso14443_4ASkyEcp => 0x81
    case Iso14443_4B => 0x02
    case Iso14443_4BSkyEcp => 0x82
    case InnovatronBPrime => 0x04
    case St25Srt512 => 0x08
    case MifareUltralight => 0x20
    case MifareClassic1K => 0x10
  }

  /** Position of each constant in `values()` (Kotlin's `ordinal`). */
  function Ordinal(p: Protocol): (i: nat)
    ensures i < |Values| && Values[i] == p
  {
    match p
    case Iso14443_4A => 0
    case Iso14443_4ASkyEcp => 1
    case Iso14443_4B => 2
    case Iso14443_4BSkyEcp => 3
    case InnovatronBPrime => 4
    case St25Srt512 => 5
    case MifareUltralight => 6
    case MifareClassic1K => 7
  }

  /** The tech value as a 32-bit polling-mask word (Kotlin's `Int`). */
  function Bits(p: Protocol): (b: bv32)
    ensures b as int == GetValue(p)
  {
    match p
    case Iso14443_4A => 0x01
    case Iso14443_4ASkyEcp => 0x81
    case Iso14443_4B => 0x02
    case Iso14443_4BSkyEcp => 0x82
    case InnovatronBPrime => 0x04
    case St25Srt512 => 0x08
    case MifareUltralight => 0x20
    case MifareClassic1K => 0x10
  }

  predicate IsSkyEcp(p: Protocol)
  {
    p == Iso14443_4ASkyEcp || p == Iso14443_4BSkyEcp
  }

  /** The plain protocol an ECP variant polls with (identity on plain protocols). */
  function Base(p: Protocol): Protocol
  {
    match p
    case Iso14443_4ASkyEcp => Iso14443_4A
    case Iso14443_4BSkyEcp => Iso14443_4B
    case _ => p
  }

  /** `fromValue`: the first constant, in declaration order, whose tech value is `value`. */
  function FromValue(value: int): (r: Option<Protocol>)
    ensures r.Some? ==> GetValue(r.value) == value
    ensures r.None? <==> forall p: Protocol :: GetValue(p) != value
  {
    var r := Lookup.FirstMatch(Values, GetValue, value);
    assert r.None? ==> forall p: Protocol :: GetValue(p) != value by {
      if r.None? {
        forall p: Protocol ensures GetValue(p) != value {
          assert Values[Ordinal(p)] == p;
        }
      }
    }
    r
  }

  lemma TechValuesDistinct()
    ensures forall p: Protocol, q: Protocol :: GetValue(p) == GetValue(q) ==> p == q
  {
  }

  /** `fromValue(p.getValue()) == p` for every constant. */
  lemma RoundTrip(p: Protocol)
    ensures FromValue(GetValue(p)) == Some(p)
  {
    TechValuesDistinct();
    Lookup.FirstMatchOfKey(Values, GetValue, Ordinal(p));
  }

  /** `fromValue` yields null exactly for the values no constant carries (-1, 0x40, 0x80, ...). */
  lemma FromValueUnlisted(value: int)
    ensures FromValue(value).None? <==> value !in {0x01, 0x81, 0x02, 0x82, 0x04, 0x08, 0x20, 0x10}
  {
    if value in {0x01, 0x81, 0x02, 0x82, 0x04, 0x08, 0x20, 0x10} {
      var p :| GetValue(p) == value;
      RoundTrip(p);
    }
  }

  /** An ECP variant's value is its base protocol's bit with 0x80 added (0x81 = 0x80|A, 0x82 = 0x80|B). */
  lemma SkyEcpValue(p: Protocol)
    requires IsSkyEcp(p)
    ensures Bits(p) == 0x80 | Bits(Base(p))
    ensures Bits(Base(p)) & 0x80 == 0
  {
  }

  /** The six plain protocols, in declaration order. */
  const PlainProtocols: seq<Protocol> := [
    Iso14443_4A, Iso14443_4B, InnovatronBPrime, St25Srt512, MifareUltralight, MifareClassic1K
  ]

  /** The polling mask obtained by OR-ing the bits of the plain protocols in `s`. */
  function MaskOf(s: set<Protocol>): bv32
  {
    MaskFrom(PlainProtocols, s)
  }

  function MaskFrom(ps: seq<Protocol>, s: set<Protocol>): bv32
  {
    if |ps| == 0 then 0
    else (if ps[0] in s then Bits(ps[0]) else 0) | MaskFrom(ps[1..], s)
  }

  /** Each plain value is a single bit, distinct from every other plain bit. */
  lemma PlainBitsDisjoint(p: Protocol, q: Protocol)
    requires !IsSkyEcp(p) && !IsSkyEcp(q)
    ensures Bits(p) != 0 && Bits(p) & (Bits(p) - 1) == 0
    ensures p != q ==> Bits(p) & Bits(q) == 0
  {
  }

  lemma {:induction false} MaskFromHasBit(ps: seq<Protocol>, s: set<Protocol>, p: Protocol)
    requires !IsSkyEcp(p)
    requires forall q :: q in ps ==> !IsSkyEcp(q)
    ensures MaskFrom(ps, s) & Bits(p) != 0 <==> p in ps && p in s
  {
    if |ps| > 0 {
      MaskFromHasBit(ps[1..], s, p);
      PlainBitsDisjoint(ps[0], p);
      assert ps == [ps[0]] + ps[1..];
    }
  }

  /** The bit of a plain protocol is set in `MaskOf(s)` exactly when the protocol is in `s`. */
  lemma MaskOfHasBit(s: set<Protocol>, p: Protocol)
    requires !IsSkyEcp(p)
    ensures MaskOf(s) & Bits(p) != 0 <==> p in s
  {
    MaskFromHasBit(PlainProtocols, s, p);
  }

  /** The OR of any set of plain protocols determines that set. */
  lemma MaskOfDeterminesSet(s: set<Protocol>, t: set<Protocol>)
    requires forall p :: p in s ==> !IsSkyEcp(p)
    requires forall p :: p in t ==> !IsSkyEcp(p)
    requires MaskOf(s) == MaskOf(t)
    ensures s == t
  {
    forall p | p in s ensures p in t {
      MaskOfHasBit(s, p);
      MaskOfHasBit(t, p);
    }
    forall p | p in t ensures p in s {
      MaskOfHasBit(s, p);
      MaskOfHasBit(t, p);
    }
  }
}
