/**
 * The 32-bit polling masks shared by both adapters: the three operations the adapters
 * apply to them (Kotlin's `or`, `and inv()` and `xor`), and one fact per lemma so that
 * each bit-vector query stays small.
 */
module BitMasks {
  /** `m or b`: the bits of `b` switched on. */
  function Set(m: bv32, b: bv32): bv32
  {
    m | b
  }

  /** `m and b.inv()`: the bits of `b` switched off. */
  function Clear(m: bv32, b: bv32): bv32
  {
    m & !b
  }

  /** `m xor b`: the bits of `b` flipped. */
  function Toggle(m: bv32, b: bv32): bv32
  {
    m ^ b
  }

  /** No bit of `m` lies outside `within`. */
  predicate Within(m: bv32, within: bv32)
  {
    m & !within == 0
  }

  /** Setting bits and clearing them again is the same as only clearing them. */
  lemma SetThenClear(m: bv32, b: bv32)
    ensures Clear(Set(m, b), b) == Clear(m, b)
  {
    assert (m | b) & !b == m & !b;
  }

  /** Clearing bits leaves the mask unchanged exactly when they were already clear. */
  lemma ClearIsIdentityIffClear(m: bv32, b: bv32)
    ensures Clear(m, b) == m <==> m & b == 0
  {
  }

  /** After clearing, the cleared bits are off ... */
  lemma ClearedBitsAreOff(m: bv32, b: bv32)
    ensures Clear(m, b) & b == 0
  {
  }

  /** `(m & !b) | b == m | b` on the raw operators, where the solver decides it at once. */
  lemma AndNotThenOr(m: bv32, b: bv32)
    ensures (m & !b) | b == m | b
  {
  }

  /** ... and every other bit is as it was. */
  lemma ClearKeepsOthers(m: bv32, b: bv32)
    ensures Set(Clear(m, b), b) == Set(m, b)
  {
    assert Set(Clear(m, b), b) == (m & !b) | b;
    AndNotThenOr(m, b);
  }

  /** Clearing the same bits twice is clearing them once. */
  lemma ClearTwice(m: bv32, b: bv32)
    ensures Clear(Clear(m, b), b) == Clear(m, b)
  {
  }

  /** Setting bits inside `within` keeps a mask inside `within`. */
  lemma SetStaysWithin(m: bv32, b: bv32, within: bv32)
    requires Within(b, within)
    ensures Within(m, within) ==> Within(Set(m, b), within)
  {
  }

  /** Clearing bits keeps a mask inside `within`. */
  lemma ClearStaysWithin(m: bv32, b: bv32, within: bv32)
    ensures Within(m, within) ==> Within(Clear(m, b), within)
  {
  }

  /** Flipping the same bits twice restores the mask. */
  lemma ToggleTwice(m: bv32, b: bv32)
    ensures Toggle(Toggle(m, b), b) == m
  {
  }

  /** Flipping bits that are all off switches them on ... */
  lemma ToggleSetsClearBits(m: bv32, b: bv32)
    ensures m & b == 0 ==> Toggle(m, b) == Set(m, b)
  {
    assert m & b == 0 ==> m ^ b == m | b;
  }

  /** ... and flipping bits that are all on switches them off. */
  lemma ToggleClearsSetBits(m: bv32, b: bv32)
    ensures m & b == b ==> Toggle(m, b) == Clear(m, b)
  {
  }

  /** Setting bits and then flipping them clears them. */
  lemma SetThenToggle(m: bv32, b: bv32)
    ensures Toggle(Set(m, b), b) == Clear(m, b)
  {
    assert (m | b) ^ b == m & !b;
  }

  /** After setting, the set bits are on. */
  lemma SetBitsAreOn(m: bv32, b: bv32)
    ensures Set(m, b) & b == b
  {
  }

  /** Setting bits that are already on changes nothing. */
  lemma SetTwice(m: bv32, b: bv32)
    ensures Set(Set(m, b), b) == Set(m, b)
  {
  }

  /** Flipping bits inside `within` keeps a mask inside `within`. */
  lemma ToggleStaysWithin(m: bv32, b: bv32, within: bv32)
    requires Within(b, within)
    ensures Within(m, within) ==> Within(Toggle(m, b), within)
  {
  }
}
