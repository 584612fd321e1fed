/**
 * `Tag`: what a discovery broadcast delivers to the contactless reader adapter, a
 * protocol plus the optional card data, compared by value (`equals`) and hashed
 * consistently with that comparison (`hashCode`).
 */
module Tags {
  import opened Wrappers
  import S = BluebirdSupportContactlessProtocols

  datatype Tag = Tag(currentProtocol: S.Protocol, data: Option<seq<bv8>>)

  /**
   * `equals`: `other` is null (`None`) or another tag. Protocols must match; the data
   * must be both null, or both present with the same contents (`contentEquals`).
   */
  function Equals(t: Tag, other: Option<Tag>): (r: bool)
    ensures r <==> other == Some(t)
  {
    match other
    case None => false
    case Some(o) =>
      if t.currentProtocol != o.currentProtocol then false
      else
        match t.data
        case Some(d) => o.data.Some? && d == o.data.value
        case None => o.data.None?
  }

  lemma EqualsReflexive(t: Tag)
    ensures Equals(t, Some(t))
  {
  }

  lemma EqualsSymmetric(a: Tag, b: Tag)
    ensures Equals(a, Some(b)) <==> Equals(b, Some(a))
  {
  }

  lemma DifferentProtocolsNeverEqual(a: Tag, b: Tag)
    requires a.currentProtocol != b.currentProtocol
    ensures !Equals(a, Some(b))
  {
  }

  /** With the same protocol, tags are equal iff both data are null or both have the same bytes. */
  lemma EqualsOnData(a: Tag, b: Tag)
    requires a.currentProtocol == b.currentProtocol
    ensures Equals(a, Some(b)) <==>
      (a.data.None? && b.data.None?) ||
      (a.data.Some? && b.data.Some? && a.data.value == b.data.value)
  {
  }

  const Int32Modulus: int := 0x1_0000_0000

  predicate IsInt32(x: int)
  {
    -0x8000_0000 <= x < 0x8000_0000
  }

  /** Wrap an integer to a 32-bit two's complement `Int`, as JVM arithmetic does. */
  function ToInt32(x: int): (r: int)
    ensures IsInt32(r)
    ensures (x - r) % Int32Modulus == 0
  {
    var m := x % Int32Modulus;
    if m >= 0x8000_0000 then m - Int32Modulus else m
  }

  /** A JVM `Byte` is signed. */
  function SignedByte(b: bv8): (r: int)
    ensures -128 <= r < 128
    ensures (r - b as int) % 256 == 0
  {
    if b < 0x80 then b as int else b as int - 256
  }

  /**
   * `ByteArray.contentHashCode()` on a non-null array, which is `java.util.Arrays.hashCode`:
   * start from 1 and fold `31 * h + byte` over the bytes, in 32-bit arithmetic.
   */
  function ContentHash(a: seq<bv8>): (r: int)
    ensures IsInt32(r)
  {
    if |a| == 0 then 1
    else ToInt32(31 * ContentHash(a[..|a| - 1]) + SignedByte(a[|a| - 1]))
  }

  /** `hashCode`: `31 * currentProtocol.hashCode() + (data?.contentHashCode() ?: 0)`. */
  function HashCode(t: Tag, protocolHash: S.Protocol -> int): (r: int)
    ensures IsInt32(r)
  {
    var dataHash := match t.data case None => 0 case Some(d) => ContentHash(d);
    ToInt32(31 * protocolHash(t.currentProtocol) + dataHash)
  }

  /** Equal tags have equal hash codes, whatever hash the enum constants carry. */
  lemma EqualTagsHaveEqualHashes(a: Tag, b: Tag, protocolHash: S.Protocol -> int)
    requires Equals(a, Some(b))
    ensures HashCode(a, protocolHash) == HashCode(b, protocolHash)
  {
  }

  /** Null data hashes as 0, unlike an empty array (hash 1). */
  lemma NullAndEmptyDataHashApart(p: S.Protocol, protocolHash: S.Protocol -> int)
    ensures HashCode(Tag(p, None), protocolHash) != HashCode(Tag(p, Some([])), protocolHash)
  {
  }
}
