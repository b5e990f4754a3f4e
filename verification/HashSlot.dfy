/** The slot of a key: the checksum of its hash tag, or of the whole key if it has none. */
module HashSlot {
  import opened BitRegister
  import opened Crc16

  const OPEN: bv8 := 0x7B
  const CLOSE: bv8 := 0x7D

  /** One less than the number of slots. */
  const SHARDS: bv16 := 16383

  /** The first opening brace is at `s`, the first closing brace after it at `e`, with something between. */
  predicate IsTag(key: seq<bv8>, s: nat, e: nat) {
    && s + 1 < e < |key| && key[s] == OPEN && key[e] == CLOSE
    && (forall i :: 0 <= i < s ==> key[i] != OPEN)
    && forall i :: s < i < e ==> key[i] != CLOSE
  }

  function Modulo(crc: bv16): bv16 {
    crc % 16384
  }

  function Masked(crc: bv16): bv16 {
    crc & SHARDS
  }

  lemma MaskIsModulo(crc: bv16)
    ensures Masked(crc) == Modulo(crc) && Modulo(crc) < 16384
  {
  }

  function SlotOf(text: seq<bv8>): bv16 {
    Modulo(CrcOf(text))
  }

  /** The slot the specification gives a key. */
  ghost predicate IsSlot(key: seq<bv8>, slot: bv16) {
    && (forall s: nat, e: nat :: IsTag(key, s, e) ==> slot == SlotOf(key[s + 1..e]))
    && ((forall s: nat, e: nat :: !IsTag(key, s, e)) ==> slot == SlotOf(key))
  }

  lemma TagIsUnique(key: seq<bv8>, s: nat, e: nat, t: nat, f: nat)
    requires IsTag(key, s, e) && IsTag(key, t, f)
    ensures s == t && e == f
  {
  }

  lemma TagHasClose(key: seq<bv8>, s: nat, e: nat)
    ensures IsTag(key, s, e) ==> CLOSE in key
  {
  }

  /** `_slot(key)`. */
  method Slot(key: seq<bv8>, signed: bool) returns (slot: bv16)
    ensures IsSlot(key, slot) && slot < 16384
  {
    hide CrcOf, IsRemainder, BitsOf, MessageBits, Modulo, Masked;
    var s := 0;
    while s < |key|
      invariant s <= |key| && forall i :: 0 <= i < s ==> key[i] != OPEN
    {
      if key[s] == OPEN {
        break;
      }
      s := s + 1;
    }
    if s == |key| {
      var crc := Crc(key, signed);
      MaskIsModulo(crc);
      return Masked(crc);
    }
    var e := s + 1;
    while e < |key|
      invariant s < e <= |key| && forall i :: s < i < e ==> key[i] != CLOSE
    {
      if key[e] == CLOSE {
        break;
      }
      e := e + 1;
    }
    if e == |key| || e == s + 1 {
      var crc := Crc(key, signed);
      MaskIsModulo(crc);
      return Masked(crc);
    }
    var crc := Crc(key[s + 1..e], signed);
    MaskIsModulo(crc);
    assert IsTag(key, s, e);
    forall t: nat, f: nat | IsTag(key, t, f) ensures t == s && f == e {
      TagIsUnique(key, s, e, t, f);
    }
    slot := Masked(crc);
  }

  /** Every key has exactly one slot, so the method's result is determined by the specification. */
  lemma SlotIsUnique(key: seq<bv8>, a: bv16, b: bv16)
    requires IsSlot(key, a) && IsSlot(key, b)
    ensures a == b
  {
    hide SlotOf, IsTag;
    if s: nat, e: nat :| IsTag(key, s, e) {
    }
  }

  function Tagged(before: seq<bv8>, tag: seq<bv8>, after: seq<bv8>): seq<bv8> {
    before + [OPEN] + tag + [CLOSE] + after
  }

  lemma TaggedHasTag(before: seq<bv8>, tag: seq<bv8>, after: seq<bv8>)
    requires OPEN !in before && CLOSE !in tag && tag != []
    ensures IsTag(Tagged(before, tag, after), |before|, |before| + 1 + |tag|)
    ensures Tagged(before, tag, after)[|before| + 1..|before| + 1 + |tag|] == tag
  {
    var key := Tagged(before, tag, after);
    var s := |before|;
    assert forall i :: 0 <= i < s ==> key[i] == before[i];
    assert forall i :: 0 <= i < |tag| ==> key[s + 1 + i] == tag[i];
    forall i | s < i < s + 1 + |tag| ensures key[i] != CLOSE {
      assert key[i] == tag[i - s - 1];
    }
  }

  /**
   * Hash tags work: whatever surrounds the braces, a key with a non-empty first tag has the slot of
   * the tag's text taken as a key, so keys with the same tag share a slot.
   */
  lemma SameTagSameSlot(before: seq<bv8>, tag: seq<bv8>, after: seq<bv8>, slot: bv16)
    requires OPEN !in before && CLOSE !in tag && tag != []
    ensures IsSlot(Tagged(before, tag, after), slot) <==> slot == SlotOf(tag)
    ensures IsSlot(tag, slot) <==> slot == SlotOf(tag)
  {
    TaggedHasTag(before, tag, after);
    var key := Tagged(before, tag, after);
    var n, m := |before|, |before| + 1 + |tag|;
    forall s: nat, e: nat | IsTag(key, s, e) ensures s == n && e == m {
      TagIsUnique(key, n, m, s, e);
    }
    forall s: nat, e: nat ensures !IsTag(tag, s, e) {
      TagHasClose(tag, s, e);
    }
  }

  /** The keys with a tag are exactly those of that shape. */
  lemma TagMeansTagged(key: seq<bv8>, s: nat, e: nat)
    requires IsTag(key, s, e)
    ensures key == Tagged(key[..s], key[s + 1..e], key[e + 1..])
    ensures OPEN !in key[..s] && CLOSE !in key[s + 1..e] && key[s + 1..e] != []
  {
  }

  /** Without a brace pair, or with an empty first one, the whole key is hashed: a later pair is no tag. */
  lemma EmptyTagHashesWholeKey(before: seq<bv8>, after: seq<bv8>, slot: bv16)
    requires OPEN !in before
    ensures IsSlot(Tagged(before, [], after), slot) <==> slot == SlotOf(Tagged(before, [], after))
  {
    var key := Tagged(before, [], after);
    assert key[|before|] == OPEN && key[|before| + 1] == CLOSE;
    assert forall i :: 0 <= i < |before| ==> key[i] == before[i] && before[i] in before;
    forall s: nat, e: nat ensures !IsTag(key, s, e) {
    }
  }

  // ----- in bytes and numbers -------------------------------------------------------------

  /** The slot is the checksum modulo 16384: of the text in the first pair of braces, 0x7B and 0x7D, if there is any. */
  lemma SlotOfTagged(before: seq<bv8>, tag: seq<bv8>, after: seq<bv8>, slot: bv16)
    requires 0x7B !in before && 0x7D !in tag && tag != []
    ensures IsSlot(before + [0x7B] + tag + [0x7D] + after, slot) <==> slot == CrcOf(tag) % 16384
    ensures IsSlot(before + [0x7B] + tag + [0x7D] + after, slot) <==> IsSlot(tag, slot)
  {
    hide CrcOf, IsSlot, Tagged, SlotOf;
    Braces(before, tag, after);
    SlotIsModulo(tag);
    SameTagSameSlot(before, tag, after, slot);
  }

  lemma Braces(before: seq<bv8>, tag: seq<bv8>, after: seq<bv8>)
    ensures Tagged(before, tag, after) == before + [0x7B] + tag + [0x7D] + after
    ensures OPEN == 0x7B && CLOSE == 0x7D
  {
  }

  lemma SlotIsModulo(text: seq<bv8>)
    ensures SlotOf(text) == CrcOf(text) % 16384
  {
    hide CrcOf;
  }

  /** And of the whole key if there is none. */
  lemma SlotOfPlain(key: seq<bv8>, slot: bv16)
    requires forall before: seq<bv8>, tag: seq<bv8>, after: seq<bv8> ::
      key == before + [0x7B] + tag + [0x7D] + after ==> 0x7B in before || 0x7D in tag || tag == []
    ensures IsSlot(key, slot) <==> slot == CrcOf(key) % 16384
  {
    forall s: nat, e: nat ensures !IsTag(key, s, e) {
      if IsTag(key, s, e) {
        TagMeansTagged(key, s, e);
      }
    }
  }

  /** The published check string falls into slot 12739, and so does every key that has it for a tag. */
  lemma SlotOfDigits(slot: bv16)
    ensures IsSlot([0x31, 0x32, 0x33, 0x34, 0x35, 0x36, 0x37, 0x38, 0x39], slot) <==> slot == 12739
  {
    var digits: seq<bv8> := [0x31, 0x32, 0x33, 0x34, 0x35, 0x36, 0x37, 0x38, 0x39];
    hide CrcOf;
    CheckValue();
    forall s: nat, e: nat ensures !IsTag(digits, s, e) {
      TagHasClose(digits, s, e);
    }
  }

  /** An empty first pair makes the whole key count. */
  lemma SlotOfEmptyPair(key: seq<bv8>, before: seq<bv8>, after: seq<bv8>, slot: bv16)
    requires 0x7B !in before && key == before + [0x7B, 0x7D] + after
    ensures IsSlot(key, slot) <==> slot == CrcOf(key) % 16384
  {
    hide CrcOf, IsSlot, SlotOf;
    Braces(before, [], after);
    assert key == Tagged(before, [], after);
    hide Tagged;
    SlotIsModulo(key);
    EmptyTagHashesWholeKey(before, after, slot);
  }

  /** `{a}b` is hashed as `a`. */
  lemma SlotOfLetters(slot: bv16)
    ensures IsSlot([0x7B, 0x61, 0x7D, 0x62], slot) <==> IsSlot([0x61], slot)
  {
    hide CrcOf, IsSlot, Tagged, SlotOf;
    var none: seq<bv8>, tag: seq<bv8>, after: seq<bv8> := [], [0x61], [0x62];
    SameTagSameSlot(none, tag, after, slot);
    LetterInBraces();
  }

  lemma LetterInBraces()
    ensures Tagged([], [0x61], [0x62]) == [0x7B, 0x61, 0x7D, 0x62]
  {
  }

  // ----- every slot is used ---------------------------------------------------------------

  /** The register one shift earlier. */
  function Unshift(r: bv16): bv16 {
    if r & 1 == 1 then ((r ^ 0x1021) >> 1) | 0x8000 else r >> 1
  }

  lemma UnshiftUndoes(r: bv16)
    ensures Shift(Unshift(r)) == r
  {
  }

  lemma EightEarlier(r: bv16) returns (w: bv16)
    ensures Shift8(w) == r
  {
    hide Shift, Unshift;
    var r1 := Unshift(r);
    var r2 := Unshift(r1);
    var r3 := Unshift(r2);
    var r4 := Unshift(r3);
    var r5 := Unshift(r4);
    var r6 := Unshift(r5);
    var r7 := Unshift(r6);
    w := Unshift(r7);
    UnshiftUndoes(r);
    UnshiftUndoes(r1);
    UnshiftUndoes(r2);
    UnshiftUndoes(r3);
    UnshiftUndoes(r4);
    UnshiftUndoes(r5);
    UnshiftUndoes(r6);
    UnshiftUndoes(r7);
  }

  function High(w: bv16): bv8 {
    (w >> 8) as bv8
  }

  function Low(w: bv16): bv8 {
    (w & 0xFF) as bv8
  }

  lemma HighAndLow(w: bv16)
    ensures Add(Wide(High(w)) << 8, Wide(Low(w))) == w
  {
  }

  /** A low byte only moves up. */
  lemma LowMovesUp(b: bv8)
    ensures Shift8(Wide(b)) == Wide(b) << 8
  {
  }

  /** Two bytes can leave anything at all in the register. */
  lemma TwoBytes(r: bv16) returns (key: seq<bv8>)
    ensures |key| == 2 && CrcOf(key) == r
  {
    var v := EightEarlier(r);
    var w := EightEarlier(v);
    var a, b := High(w), Low(w);
    key := [a, b];
    HighAndLow(w);
    LowMovesUp(b);
    hide Shift8, High, Low;
    Shift8IsLinear(Wide(a) << 8, Wide(b));
    CrcOfTwo(a, b);
  }

  lemma CrcOfTwo(a: bv8, b: bv8)
    ensures CrcOf([a, b]) == Shift8(Add(Shift8(Wide(a) << 8), Wide(b) << 8))
  {
    hide Shift8, Wide;
    assert [a, b][..1] == [a] && [a][..0] == [];
    assert CrcOf([a]) == FeedByte(0, Wide(a));
    FromZero(Wide(a) << 8);
  }

  lemma FromZero(x: bv16)
    ensures 0 ^ x == x
  {
  }

  /** Every number below 16384 is the slot of some key. */
  lemma EverySlotIsUsed(slot: bv16) returns (key: seq<bv8>)
    requires slot < 16384
    ensures IsSlot(key, slot)
  {
    key := TwoBytes(slot);
    hide CrcOf;
    SmallIsItself(slot);
    hide Modulo;
    assert forall s: nat, e: nat :: !IsTag(key, s, e);
  }

  lemma SmallIsItself(slot: bv16)
    requires slot < 16384
    ensures Modulo(slot) == slot
  {
  }
}
