/** A 16-bit register that divides by x^16 + x^12 + x^5 + 1: what one shift, and eight, do to it. */
module BitRegister {

  /** The register moves up one place; if a bit falls out at the top, the generator is subtracted. */
  function Shift(r: bv16): bv16 {
    var t := r >> 15;
    (r << 1) ^ (t << 12) ^ (t << 5) ^ t
  }

  function Shift8(r: bv16): bv16 {
    Shift(Shift(Shift(Shift(Shift(Shift(Shift(Shift(r))))))))
  }

  /** One bit of the message, 0 or 1, is brought in at the top of the register. */
  function Feed(r: bv16, t: bv16): bv16 {
    Shift(r ^ (t << 15))
  }

  /** A whole byte is brought in at the top, then shifted through. */
  function FeedByte(r: bv16, b: bv16): bv16 {
    Shift8(r ^ (b << 8))
  }

  /** The sum of two polynomials of degree below 16. */
  function Add(a: bv16, b: bv16): bv16 {
    a ^ b
  }

  lemma ShiftOfXor(a: bv16, b: bv16)
    ensures Shift(a ^ b) == Shift(a) ^ Shift(b)
  {
  }

  lemma ShiftIsLinear(a: bv16, b: bv16)
    ensures Shift(Add(a, b)) == Add(Shift(a), Shift(b))
  {
    hide Shift;
    ShiftOfXor(a, b);
  }

  lemma Shift8IsLinear(a: bv16, b: bv16)
    ensures Shift8(Add(a, b)) == Add(Shift8(a), Shift8(b))
  {
    hide Shift, Add;
    var a1, b1 := Shift(a), Shift(b);
    var a2, b2 := Shift(a1), Shift(b1);
    var a3, b3 := Shift(a2), Shift(b2);
    var a4, b4 := Shift(a3), Shift(b3);
    var a5, b5 := Shift(a4), Shift(b4);
    var a6, b6 := Shift(a5), Shift(b5);
    var a7, b7 := Shift(a6), Shift(b6);
    ShiftIsLinear(a, b);
    ShiftIsLinear(a1, b1);
    ShiftIsLinear(a2, b2);
    ShiftIsLinear(a3, b3);
    ShiftIsLinear(a4, b4);
    ShiftIsLinear(a5, b5);
    ShiftIsLinear(a6, b6);
    ShiftIsLinear(a7, b7);
  }

  lemma XorMoves(r: bv16, s: bv16, a: bv16, b: bv16)
    ensures Add(r, s) ^ (Add(a, b) << 8) == Add(r ^ (a << 8), s ^ (b << 8))
  {
  }

  lemma FeedByteIsLinear(r: bv16, s: bv16, a: bv16, b: bv16)
    ensures FeedByte(Add(r, s), Add(a, b)) == Add(FeedByte(r, a), FeedByte(s, b))
  {
    hide Shift8;
    XorMoves(r, s, a, b);
    Shift8IsLinear(r ^ (a << 8), s ^ (b << 8));
    hide Add;
  }

  /** The byte without its highest bit, moved up. */
  function Rest(b: bv16): bv16 {
    (b & 0x7f) << 1
  }

  function HighBit(b: bv16): bv16 {
    (b >> 7) & 1
  }

  /** The register with a byte waiting to be shifted in. */
  function Before(r: bv16, b: bv16): bv16 {
    r ^ (b << 8)
  }

  /** Shifting a byte in at once brings in its top bit and leaves the rest to be shifted in. */
  lemma PeelBit(r: bv16, b: bv16)
    ensures Shift(Before(r, b)) == Before(Feed(r, HighBit(b)), Rest(b))
  {
    hide Shift, Feed;
    ShiftOfByte(r, b);
  }

  lemma ShiftOfByte(r: bv16, b: bv16)
    ensures Shift(r ^ (b << 8)) == Feed(r, (b >> 7) & 1) ^ ((b & 0x7f) << 1 << 8)
  {
  }

  lemma RestOfByte(b: bv16)
    ensures var b1 := Rest(b);
      var b2 := Rest(b1);
      var b3 := Rest(b2);
      var b4 := Rest(b3);
      var b5 := Rest(b4);
      var b6 := Rest(b5);
      var b7 := Rest(b6);
      && HighBit(b1) == (b >> 6) & 1 && HighBit(b2) == (b >> 5) & 1 && HighBit(b3) == (b >> 4) & 1
      && HighBit(b4) == (b >> 3) & 1 && HighBit(b5) == (b >> 2) & 1 && HighBit(b6) == (b >> 1) & 1
      && HighBit(b7) == b & 1 && Rest(b7) == 0
  {
  }

  lemma NothingWaits(r: bv16)
    ensures Before(r, 0) == r
  {
  }

  /** Dividing by a byte at once is dividing by its bits, from the highest down. */
  lemma FeedByteByBits(r: bv16, b: bv16)
    ensures FeedByte(r, b)
      == Feed(Feed(Feed(Feed(Feed(Feed(Feed(Feed(r, HighBit(b)), (b >> 6) & 1), (b >> 5) & 1), (b >> 4) & 1),
                             (b >> 3) & 1), (b >> 2) & 1), (b >> 1) & 1), b & 1)
  {
    assert FeedByte(r, b) == Shift8(Before(r, b));
    RestOfByte(b);
    hide Shift, Feed, Before, Rest, HighBit, FeedByte;
    var b1 := Rest(b);
    var b2 := Rest(b1);
    var b3 := Rest(b2);
    var b4 := Rest(b3);
    var b5 := Rest(b4);
    var b6 := Rest(b5);
    var b7 := Rest(b6);
    var r1 := Feed(r, HighBit(b));
    var r2 := Feed(r1, HighBit(b1));
    var r3 := Feed(r2, HighBit(b2));
    var r4 := Feed(r3, HighBit(b3));
    var r5 := Feed(r4, HighBit(b4));
    var r6 := Feed(r5, HighBit(b5));
    var r7 := Feed(r6, HighBit(b6));
    PeelBit(r, b);
    PeelBit(r1, b1);
    PeelBit(r2, b2);
    PeelBit(r3, b3);
    PeelBit(r4, b4);
    PeelBit(r5, b5);
    PeelBit(r6, b6);
    PeelBit(r7, b7);
    NothingWaits(Feed(r7, HighBit(b7)));
  }

  /** The index into the table. */
  function Index(crc: bv16, wide: bv16): (x: bv16)
    ensures x < 0x100
  {
    ((crc >> 8) ^ wide) & 0x00FF
  }

  function Up(x: bv16): bv16 {
    x << 8
  }

  lemma TableStepRaw(crc: bv16, wide: bv16)
    ensures (crc << 8) ^ Shift8((((crc >> 8) ^ wide) & 0x00FF) << 8) == Shift8(crc ^ ((wide & 0x00FF) << 8))
  {
  }

  /** Looking up what the index shifts to divides by the low byte of what a `char` is widened to. */
  lemma TableStep(crc: bv16, wide: bv16)
    ensures Add(Up(crc), Shift8(Up(Index(crc, wide)))) == FeedByte(crc, wide & 0x00FF)
  {
    hide Shift8;
    TableStepRaw(crc, wide);
  }

  function Wide(b: bv8): bv16 {
    b as bv16
  }

  function AsBit(b: bool): bv16 {
    if b then 1 else 0
  }

  lemma FeedMoves(r: bv16, m: bv16)
    requires m < 2
    ensures var t, s := (r >> 15) ^ m, Feed(r, m);
      && s >> 15 == (r >> 14) & 1 && (s >> 14) & 1 == (r >> 13) & 1 && (s >> 13) & 1 == (r >> 12) & 1
      && (s >> 12) & 1 == ((r >> 11) & 1) ^ t && (s >> 11) & 1 == (r >> 10) & 1 && (s >> 10) & 1 == (r >> 9) & 1
      && (s >> 9) & 1 == (r >> 8) & 1 && (s >> 8) & 1 == (r >> 7) & 1 && (s >> 7) & 1 == (r >> 6) & 1
      && (s >> 6) & 1 == (r >> 5) & 1 && (s >> 5) & 1 == ((r >> 4) & 1) ^ t && (s >> 4) & 1 == (r >> 3) & 1
      && (s >> 3) & 1 == (r >> 2) & 1 && (s >> 2) & 1 == (r >> 1) & 1 && (s >> 1) & 1 == r & 1 && s & 1 == t
  {
  }

  lemma BitFacts(r: bv16, m: bv16)
    requires m < 2
    ensures (r >> 15) & 1 == r >> 15 && r >> 0 == r
    ensures (r >> 15) ^ m == 1 <==> (r >> 15 == 1) != (m == 1)
    ensures ((r >> 11) & 1) ^ ((r >> 15) ^ m) == 1 <==> ((r >> 11) & 1 == 1) != ((r >> 15) ^ m == 1)
    ensures ((r >> 4) & 1) ^ ((r >> 15) ^ m) == 1 <==> ((r >> 4) & 1 == 1) != ((r >> 15) ^ m == 1)
  {
  }

  lemma FeedSubtractsRaw(r: bv16, b: bool)
    ensures var s, t := Feed(r, AsBit(b)), (r >> 15 == 1) != b;
      && (s >> 15 == 1) == ((r >> 14) & 1 == 1) && ((s >> 14) & 1 == 1) == ((r >> 13) & 1 == 1)
      && ((s >> 13) & 1 == 1) == ((r >> 12) & 1 == 1) && ((s >> 12) & 1 == 1) == (((r >> 11) & 1 == 1) != t)
      && ((s >> 11) & 1 == 1) == ((r >> 10) & 1 == 1) && ((s >> 10) & 1 == 1) == ((r >> 9) & 1 == 1)
      && ((s >> 9) & 1 == 1) == ((r >> 8) & 1 == 1) && ((s >> 8) & 1 == 1) == ((r >> 7) & 1 == 1)
      && ((s >> 7) & 1 == 1) == ((r >> 6) & 1 == 1) && ((s >> 6) & 1 == 1) == ((r >> 5) & 1 == 1)
      && ((s >> 5) & 1 == 1) == (((r >> 4) & 1 == 1) != t) && ((s >> 4) & 1 == 1) == ((r >> 3) & 1 == 1)
      && ((s >> 3) & 1 == 1) == ((r >> 2) & 1 == 1) && ((s >> 2) & 1 == 1) == ((r >> 1) & 1 == 1)
      && ((s >> 1) & 1 == 1) == (r & 1 == 1) && (s & 1 == 1) == t
  {
    var m := AsBit(b);
    FeedMoves(r, m);
    BitFacts(r, m);
    hide Feed;
  }

  /** Coefficient `k` of the register. */
  predicate Coefficient(r: bv16, k: nat)
    requires k < 16
  {
    match k
    case 15 => r >> 15 == 1
    case 14 => (r >> 14) & 1 == 1
    case 13 => (r >> 13) & 1 == 1
    case 12 => (r >> 12) & 1 == 1
    case 11 => (r >> 11) & 1 == 1
    case 10 => (r >> 10) & 1 == 1
    case 9 => (r >> 9) & 1 == 1
    case 8 => (r >> 8) & 1 == 1
    case 7 => (r >> 7) & 1 == 1
    case 6 => (r >> 6) & 1 == 1
    case 5 => (r >> 5) & 1 == 1
    case 4 => (r >> 4) & 1 == 1
    case 3 => (r >> 3) & 1 == 1
    case 2 => (r >> 2) & 1 == 1
    case 1 => (r >> 1) & 1 == 1
    case _ => r & 1 == 1
  }

  lemma CoefficientsAre(r: bv16)
    ensures Coefficient(r, 0) == (r & 1 == 1) && Coefficient(r, 1) == ((r >> 1) & 1 == 1)
    ensures Coefficient(r, 2) == ((r >> 2) & 1 == 1) && Coefficient(r, 3) == ((r >> 3) & 1 == 1)
    ensures Coefficient(r, 4) == ((r >> 4) & 1 == 1) && Coefficient(r, 5) == ((r >> 5) & 1 == 1)
    ensures Coefficient(r, 6) == ((r >> 6) & 1 == 1) && Coefficient(r, 7) == ((r >> 7) & 1 == 1)
    ensures Coefficient(r, 8) == ((r >> 8) & 1 == 1) && Coefficient(r, 9) == ((r >> 9) & 1 == 1)
    ensures Coefficient(r, 10) == ((r >> 10) & 1 == 1) && Coefficient(r, 11) == ((r >> 11) & 1 == 1)
    ensures Coefficient(r, 12) == ((r >> 12) & 1 == 1) && Coefficient(r, 13) == ((r >> 13) & 1 == 1)
    ensures Coefficient(r, 14) == ((r >> 14) & 1 == 1) && Coefficient(r, 15) == (r >> 15 == 1)
  {
  }

  /** Feeding one bit moves every coefficient up, and subtracts the generator if a bit falls out. */
  lemma FeedSubtracts(r: bv16, b: bool)
    ensures var s, t := Feed(r, AsBit(b)), Coefficient(r, 15) != b;
      && Coefficient(s, 15) == Coefficient(r, 14) && Coefficient(s, 14) == Coefficient(r, 13)
      && Coefficient(s, 13) == Coefficient(r, 12) && Coefficient(s, 12) == (Coefficient(r, 11) != t)
      && Coefficient(s, 11) == Coefficient(r, 10) && Coefficient(s, 10) == Coefficient(r, 9)
      && Coefficient(s, 9) == Coefficient(r, 8) && Coefficient(s, 8) == Coefficient(r, 7)
      && Coefficient(s, 7) == Coefficient(r, 6) && Coefficient(s, 6) == Coefficient(r, 5)
      && Coefficient(s, 5) == (Coefficient(r, 4) != t) && Coefficient(s, 4) == Coefficient(r, 3)
      && Coefficient(s, 3) == Coefficient(r, 2) && Coefficient(s, 2) == Coefficient(r, 1)
      && Coefficient(s, 1) == Coefficient(r, 0) && Coefficient(s, 0) == t
  {
    hide Feed, AsBit, Coefficient;
    CoefficientsAre(r);
    CoefficientsAre(Feed(r, AsBit(b)));
    FeedSubtractsRaw(r, b);
  }

  lemma ByteBits(b: bv16)
    ensures AsBit((b >> 7) & 1 == 1) == HighBit(b) && AsBit((b >> 6) & 1 == 1) == (b >> 6) & 1
    ensures AsBit((b >> 5) & 1 == 1) == (b >> 5) & 1 && AsBit((b >> 4) & 1 == 1) == (b >> 4) & 1
    ensures AsBit((b >> 3) & 1 == 1) == (b >> 3) & 1 && AsBit((b >> 2) & 1 == 1) == (b >> 2) & 1
    ensures AsBit((b >> 1) & 1 == 1) == (b >> 1) & 1 && AsBit(b & 1 == 1) == b & 1
  {
  }
}
