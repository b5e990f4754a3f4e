/**
 * CRC-16/XMODEM: the table-driven loop computes the remainder of the message, times x^16, on division
 * by x^16 + x^12 + x^5 + 1 over GF(2).
 */
module Crc16 {
  import opened BitRegister
  import opened CrcTable

  // ----- polynomials over GF(2), as coefficients from the highest power down --------------

  type Bits = seq<bool>

  function Zeros(n: nat): (z: Bits) {
    seq(n, _ => false)
  }

  /** The sum of two polynomials written with equally many coefficients. */
  function Xor(s: Bits, t: Bits): (x: Bits)
    requires |s| == |t|
    ensures |x| == |s|
  {
    seq(|s|, i requires 0 <= i < |s| => s[i] != t[i])
  }

  /** `g` if `bit`, else zero, as `n + |g|` coefficients. */
  function Scaled(g: Bits, n: nat, bit: bool): (p: Bits)
    ensures |p| == n + |g|
  {
    if bit then Zeros(n) + g else Zeros(n + |g|)
  }

  /** The product, by shifting and adding: `q + [b]` stands for `q` times x plus `b`. */
  function Times(q: Bits, g: Bits): (p: Bits)
    requires g != []
    ensures |p| == |q| + |g| - 1
  {
    if q == [] then Zeros(|g| - 1)
    else
      var n := |q| - 1;
      Xor(Times(q[..n], g) + [false], Scaled(g, n, q[n]))
  }

  /** x^16 + x^12 + x^5 + 1. */
  function Generator(): (g: Bits)
    ensures |g| == 17
  {
    seq(17, (i: nat) => 16 - i == 16 || 16 - i == 12 || 16 - i == 5 || 16 - i == 0)
  }

  /** `m` times x^16 is a multiple of the generator plus `r`, which has degree below 16. */
  ghost predicate IsRemainder(m: Bits, r: Bits) {
    |r| == 16 && exists q: Bits :: Divides(m, q, r)
  }

  ghost predicate Divides(m: Bits, q: Bits, r: Bits)
    requires |r| == 16
  {
    |q| == |m| && m + Zeros(16) == Xor(Times(q, Generator()), Zeros(|m|) + r)
  }

  // ----- remainders are unique ------------------------------------------------------------

  lemma {:induction false} TimesIsLinear(p: Bits, q: Bits, g: Bits)
    requires |p| == |q| && g != []
    ensures Times(Xor(p, q), g) == Xor(Times(p, g), Times(q, g))
  {
    if p != [] {
      var n := |p| - 1;
      TimesIsLinear(p[..n], q[..n], g);
      assert Xor(p, q)[..n] == Xor(p[..n], q[..n]);
    } else {
      assert Xor(p, q) == [];
    }
  }

  /** The product's coefficient at the first set bit of a factor is set, if the other's leading bit is. */
  lemma {:induction false} LeadingBit(q: Bits, g: Bits, i: nat)
    requires g != [] && g[0] && i < |q| && q[i] && forall j :: 0 <= j < i ==> !q[j]
    ensures Times(q, g)[i]
  {
    var n := |q| - 1;
    if i < n {
      LeadingBit(q[..n], g, i);
    } else {
      LeadingZeros(q[..n], g, n);
    }
  }

  lemma {:induction false} LeadingZeros(q: Bits, g: Bits, i: nat)
    requires g != [] && i < |q| + |g| && forall j :: 0 <= j < |q| ==> !q[j]
    ensures i < |Times(q, g)| ==> !Times(q, g)[i]
  {
    if q != [] && i < |q| + |g| - 2 {
      LeadingZeros(q[..|q| - 1], g, i);
    }
  }

  /** Only the zero polynomial times a monic one vanishes above the other's degree. */
  lemma {:induction false} NoMultipleIsSmall(q: Bits, g: Bits, i: nat)
    requires g != [] && g[0] && i <= |q|
    requires forall j :: 0 <= j < |q| ==> !Times(q, g)[j]
    ensures forall j :: 0 <= j < i ==> !q[j]
  {
    if i > 0 {
      NoMultipleIsSmall(q, g, i - 1);
      if q[i - 1] {
        LeadingBit(q, g, i - 1);
      }
    }
  }

  /** A message has one remainder. */
  lemma RemainderIsUnique(m: Bits, r: Bits, s: Bits)
    requires IsRemainder(m, r) && IsRemainder(m, s)
    ensures r == s
  {
    var p: Bits :| Divides(m, p, r);
    var q: Bits :| Divides(m, q, s);
    SameMessage(m, p, r, q, s);
  }

  lemma SameMessage(m: Bits, p: Bits, r: Bits, q: Bits, s: Bits)
    requires |r| == |s| == 16 && Divides(m, p, r) && Divides(m, q, s)
    ensures r == s
  {
    var g, n := Generator(), |m|;
    var x, y := Times(p, g), Times(q, g);
    TimesIsLinear(p, q, g);
    var d := Xor(p, q);
    assert Times(d, g) == Xor(x, y);
    hide Times;
    var left, right := Zeros(n) + r, Zeros(n) + s;
    forall k | 0 <= k < n + 16 ensures (x[k] != left[k]) == (y[k] != right[k]) {
      assert Xor(x, left)[k] == Xor(y, right)[k];
    }
    forall j | 0 <= j < n ensures !Times(d, g)[j] {
      assert left[j] == right[j] == false;
    }
    NoMultipleIsSmall(d, g, n);
    forall k | 0 <= k < 16 ensures r[k] == s[k] {
      assert left[n + k] == r[k] && right[n + k] == s[k];
      LeadingZeros(d, g, n + k);
    }
  }

  // ----- division bit by bit --------------------------------------------------------------

  /** The register after the bits of `m`. */
  function Register(m: Bits): bv16 {
    if m == [] then 0 else Feed(Register(m[..|m| - 1]), AsBit(m[|m| - 1]))
  }

  function BitsOf(r: bv16): (b: Bits)
    ensures |b| == 16
  {
    seq(16, k requires 0 <= k < 16 => Coefficient(r, 15 - k))
  }

  /** The bits that have fallen out at the top: the quotient. */
  function Quotient(m: Bits): (q: Bits)
    ensures |q| == |m|
  {
    if m == [] then []
    else
      var n := |m| - 1;
      Quotient(m[..n]) + [BitsOf(Register(m[..n]))[0] != m[n]]
  }

  /** `y` is `x` moved up one place, less the generator if `t`. */
  predicate Subtracted(x: Bits, y: Bits, t: bool)
    requires |x| == |y| == 16
  {
    && y[0] == x[1] && y[1] == x[2] && y[2] == x[3] && y[3] == (x[4] != t)
    && y[4] == x[5] && y[5] == x[6] && y[6] == x[7] && y[7] == x[8]
    && y[8] == x[9] && y[9] == x[10] && y[10] == (x[11] != t) && y[11] == x[12]
    && y[12] == x[13] && y[13] == x[14] && y[14] == x[15] && y[15] == t
  }

  lemma FeedCoefficients(r: bv16, b: bool)
    ensures Subtracted(BitsOf(r), BitsOf(Feed(r, AsBit(b))), BitsOf(r)[0] != b)
  {
    hide Feed, AsBit, Coefficient;
    FeedSubtracts(r, b);
  }

  /** One step of long division, written out on 17 coefficients. */
  lemma FeedDivides(r: bv16, b: bool)
    ensures Xor(BitsOf(r) + [false], [b] + Zeros(16))
      == Xor(Scaled(Generator(), 0, BitsOf(r)[0] != b), [false] + BitsOf(Feed(r, AsBit(b))))
  {
    hide BitsOf, Feed, AsBit, Xor, Scaled, Generator, Zeros, Subtracted;
    FeedCoefficients(r, b);
    Subtraction(BitsOf(r), BitsOf(Feed(r, AsBit(b))), b);
  }

  lemma SubtractedAt(x: Bits, y: Bits, t: bool, k: nat)
    requires |x| == |y| == 16 && Subtracted(x, y, t) && 0 < k < 16
    ensures y[k - 1] == (x[k] != (t && (k == 4 || k == 11))) && y[15] == t
  {
    match k
    case 1 =>
    case 2 =>
    case 3 =>
    case 4 =>
    case 5 =>
    case 6 =>
    case 7 =>
    case 8 =>
    case 9 =>
    case 10 =>
    case 11 =>
    case 12 =>
    case 13 =>
    case 14 =>
    case _ =>
      assert k == 15;
  }

  lemma Subtraction(x: Bits, y: Bits, b: bool)
    requires |x| == |y| == 16 && Subtracted(x, y, x[0] != b)
    ensures Xor(x + [false], [b] + Zeros(16)) == Xor(Scaled(Generator(), 0, x[0] != b), [false] + y)
  {
    hide Subtracted;
    var t := x[0] != b;
    var g := Scaled(Generator(), 0, t);
    forall k | 0 <= k < 17 ensures ((x + [false])[k] != ([b] + Zeros(16))[k]) == (g[k] != ([false] + y)[k]) {
      SubtractedAt(x, y, t, if 0 < k < 16 then k else 1);
    }
  }

  /** The register always holds the remainder of the bits fed so far. */
  lemma {:induction false} RegisterDivides(m: Bits)
    ensures Divides(m, Quotient(m), BitsOf(Register(m)))
  {
    if m == [] {
      assert m + Zeros(16) == Xor(Times([], Generator()), [] + BitsOf(0));
    } else {
      var n := |m| - 1;
      var f, b := m[..n], m[n];
      RegisterDivides(f);
      FeedDivides(Register(f), b);
      LongDivision(f, b, Quotient(f), BitsOf(Register(f)), BitsOf(Register(m)), Quotient(m)[n]);
      assert f + [b] == m;
      assert Quotient(m) == Quotient(f) + [Quotient(m)[n]];
    }
  }

  lemma LongDivision(f: Bits, b: bool, q: Bits, x: Bits, y: Bits, t: bool)
    requires |x| == |y| == 16 && Divides(f, q, x)
    requires Xor(x + [false], [b] + Zeros(16)) == Xor(Scaled(Generator(), 0, t), [false] + y)
    ensures Divides(f + [b], q + [t], y)
  {
    var n := |f|;
    var m, q', g := f + [b], q + [t], Generator();
    assert q'[..n] == q;
    var p := Times(q, g);
    assert Times(q', g) == Xor(p + [false], Scaled(g, n, t));
    hide Times;
    var left, right := m + Zeros(16), Xor(Times(q', g), Zeros(n + 1) + y);
    forall k | 0 <= k < n + 17 ensures left[k] == right[k] {
      if k < n {
        assert (f + Zeros(16))[k] == Xor(p, Zeros(n) + x)[k];
      } else {
        var j := k - n;
        assert Xor(x + [false], [b] + Zeros(16))[j] == Xor(Scaled(g, 0, t), [false] + y)[j];
        if j < 16 {
          assert (f + Zeros(16))[k] == Xor(p, Zeros(n) + x)[k];
        }
      }
    }
  }

  // ----- byte by byte ---------------------------------------------------------------------

  function BitsOfByte(byte: bv8): (m: Bits)
    ensures |m| == 8
  {
    var b := Wide(byte);
    [(b >> 7) & 1 == 1, (b >> 6) & 1 == 1, (b >> 5) & 1 == 1, (b >> 4) & 1 == 1,
     (b >> 3) & 1 == 1, (b >> 2) & 1 == 1, (b >> 1) & 1 == 1, b & 1 == 1]
  }

  /** The bits of a string of bytes, each from its highest bit down. */
  function MessageBits(buf: seq<bv8>): Bits {
    if buf == [] then [] else MessageBits(buf[..|buf| - 1]) + BitsOfByte(buf[|buf| - 1])
  }

  function CrcOf(buf: seq<bv8>): bv16 {
    if buf == [] then 0 else FeedByte(CrcOf(buf[..|buf| - 1]), Wide(buf[|buf| - 1]))
  }

  function FeedAll(r: bv16, m: Bits): bv16
    decreases |m|
  {
    if m == [] then r else FeedAll(Feed(r, AsBit(m[0])), m[1..])
  }

  lemma {:induction false} FeedAllSplits(r: bv16, m: Bits, k: Bits)
    ensures FeedAll(r, m + k) == FeedAll(FeedAll(r, m), k)
    decreases |m|
  {
    hide Feed, AsBit;
    if m == [] {
      assert m + k == k;
    } else {
      assert (m + k)[1..] == m[1..] + k;
      FeedAllSplits(Feed(r, AsBit(m[0])), m[1..], k);
    }
  }

  lemma FeedEight(r: bv16, m: Bits)
    requires |m| == 8
    ensures FeedAll(r, m)
      == Feed(Feed(Feed(Feed(Feed(Feed(Feed(Feed(r, AsBit(m[0])), AsBit(m[1])), AsBit(m[2])), AsBit(m[3])),
                             AsBit(m[4])), AsBit(m[5])), AsBit(m[6])), AsBit(m[7]))
  {
    hide Feed, AsBit, FeedAll;
    assert m == m[..4] + m[4..];
    FeedAllSplits(r, m[..4], m[4..]);
    FeedFour(r, m[..4]);
    FeedFour(FeedAll(r, m[..4]), m[4..]);
  }

  lemma FeedFour(r: bv16, m: Bits)
    requires |m| == 4
    ensures FeedAll(r, m) == Feed(Feed(Feed(Feed(r, AsBit(m[0])), AsBit(m[1])), AsBit(m[2])), AsBit(m[3]))
  {
    hide Feed, AsBit;
    var r1 := Feed(r, AsBit(m[0]));
    var r2 := Feed(r1, AsBit(m[1]));
    var r3 := Feed(r2, AsBit(m[2]));
    assert FeedAll(r, m) == FeedAll(r1, m[1..]) == FeedAll(r2, m[1..][1..]);
    assert m[1..][1..] == m[2..] && m[2..][1..] == m[3..] && m[3..][1..] == [];
    assert FeedAll(r2, m[2..]) == FeedAll(r3, m[3..]) == FeedAll(Feed(r3, AsBit(m[3])), []);
  }

  lemma FeedsBits(r: bv16, byte: bv8)
    ensures FeedByte(r, Wide(byte)) == FeedAll(r, BitsOfByte(byte))
  {
    hide Feed, FeedByte, AsBit, FeedAll;
    FeedByteByBits(r, Wide(byte));
    ByteBits(Wide(byte));
    FeedEight(r, BitsOfByte(byte));
  }

  lemma {:induction false} RegisterFeeds(m: Bits, k: Bits)
    ensures Register(m + k) == FeedAll(Register(m), k)
    decreases |k|
  {
    if k == [] {
      assert m + k == m;
    } else {
      var m' := m + [k[0]];
      assert m'[..|m'| - 1] == m;
      RegisterFeeds(m', k[1..]);
      assert m + k == m' + k[1..];
    }
  }

  /** Dividing byte by byte and bit by bit come to the same. */
  lemma {:induction false} CrcIsRegister(buf: seq<bv8>)
    ensures CrcOf(buf) == Register(MessageBits(buf))
  {
    hide Feed, FeedByte;
    if buf != [] {
      var n := |buf| - 1;
      CrcIsRegister(buf[..n]);
      FeedsBits(CrcOf(buf[..n]), buf[n]);
      RegisterFeeds(MessageBits(buf[..n]), BitsOfByte(buf[n]));
    }
  }

  /** The checksum is the remainder, and no other 16 bits are. */
  lemma CrcIsRemainder(buf: seq<bv8>, r: Bits)
    ensures IsRemainder(MessageBits(buf), r) <==> r == BitsOf(CrcOf(buf))
  {
    hide BitsOf, Divides, Register;
    var m := MessageBits(buf);
    CrcIsRegister(buf);
    RegisterDivides(m);
    assert IsRemainder(m, BitsOf(CrcOf(buf)));
    if IsRemainder(m, r) {
      RemainderIsUnique(m, r, BitsOf(CrcOf(buf)));
    }
  }

  lemma OneByteMore(buf: seq<bv8>, b: bv8)
    ensures CrcOf(buf + [b]) == FeedByte(CrcOf(buf), Wide(b))
  {
    assert (buf + [b])[..|buf|] == buf;
  }

  lemma Feeds(r: bv16, b: bv8, s: bv16)
    requires FeedByte(r, Wide(b)) == s
    ensures forall buf :: CrcOf(buf) == r ==> CrcOf(buf + [b]) == s
  {
    hide FeedByte, Wide;
    forall buf | CrcOf(buf) == r ensures CrcOf(buf + [b]) == s {
      OneByteMore(buf, b);
    }
  }

  /** The check value that is published for this checksum. */
  lemma CheckValue()
    ensures CrcOf([0x31, 0x32, 0x33, 0x34, 0x35, 0x36, 0x37, 0x38, 0x39]) == 0x31C3
  {
    Feeds(0x0000, 0x31, 0x2672);
    Feeds(0x2672, 0x32, 0x20B5);
    Feeds(0x20B5, 0x33, 0x9752);
    Feeds(0x9752, 0x34, 0xD789);
    Feeds(0xD789, 0x35, 0x546C);
    Feeds(0x546C, 0x36, 0x20E4);
    Feeds(0x20E4, 0x37, 0x86D6);
    Feeds(0x86D6, 0x38, 0x9015);
    Feeds(0x9015, 0x39, 0x31C3);
    hide FeedByte;
    assert CrcOf([]) == 0;
    var m: seq<bv8> := [] + [0x31];
    assert CrcOf(m + [0x32]) == 0x20B5;
    assert [0x31, 0x32, 0x33, 0x34, 0x35, 0x36, 0x37, 0x38, 0x39]
      == m + [0x32] + [0x33] + [0x34] + [0x35] + [0x36] + [0x37] + [0x38] + [0x39];
  }

  // ----- linearity ------------------------------------------------------------------------

  function XorBytes(a: seq<bv8>, b: seq<bv8>): (x: seq<bv8>)
    requires |a| == |b|
    ensures |x| == |a|
  {
    seq(|a|, i requires 0 <= i < |a| => XorByte(a[i], b[i]))
  }

  function XorByte(a: bv8, b: bv8): bv8 {
    a ^ b
  }

  lemma WidenXor(a: bv8, b: bv8)
    ensures Wide(XorByte(a, b)) == Add(Wide(a), Wide(b))
  {
  }

  lemma AddZero()
    ensures Add(0, 0) == 0
  {
  }

  /** The checksum of the bytewise sum of two strings of equal length is the sum of their checksums. */
  lemma {:induction false} CrcIsLinear(a: seq<bv8>, b: seq<bv8>)
    requires |a| == |b|
    ensures CrcOf(XorBytes(a, b)) == Add(CrcOf(a), CrcOf(b))
  {
    hide FeedByte, Add, XorByte, Wide;
    if a == [] {
      AddZero();
    } else {
      var n := |a| - 1;
      CrcIsLinear(a[..n], b[..n]);
      assert XorBytes(a, b)[..n] == XorBytes(a[..n], b[..n]);
      FeedByteIsLinear(CrcOf(a[..n]), CrcOf(b[..n]), Wide(a[n]), Wide(b[n]));
      WidenXor(a[n], b[n]);
    }
  }

  // ----- the loop -------------------------------------------------------------------------

  /** A `char`, widened: where it is signed, its sign bit fills the upper byte. */
  function Widen(b: bv8, signed: bool): bv16 {
    if signed && b & 0x80 != 0 then 0xFF00 | (b as bv16) else b as bv16
  }

  lemma WidenKeepsByte(b: bv8, signed: bool)
    ensures Widen(b, signed) & 0x00FF == Wide(b)
  {
  }

  /** The body of the loop: `Add` is exclusive or, `Up` a shift by 8 within 16 bits. */
  function Round(crc: bv16, b: bv8, signed: bool): bv16 {
    Add(Up(crc), Table(Index(crc, Widen(b, signed))))
  }

  /** One round of the loop divides one byte further, whether `char` is signed or not. */
  lemma RoundDivides(crc: bv16, b: bv8, signed: bool)
    ensures Round(crc, b, signed) == FeedByte(crc, Wide(b))
  {
    hide Table, Widen, FeedByte, Shift8, Add, Up, Index, Wide;
    TableStep(crc, Widen(b, signed));
    TableDivides(Index(crc, Widen(b, signed)));
    WidenKeepsByte(b, signed);
  }

  /** `crc16`: exactly the remainder of the division. */
  method Crc(buf: seq<bv8>, signed: bool) returns (crc: bv16)
    ensures crc == CrcOf(buf)
    ensures forall r :: IsRemainder(MessageBits(buf), r) <==> r == BitsOf(crc)
  {
    hide Round, FeedByte, IsRemainder, BitsOf;
    crc := 0;
    for counter := 0 to |buf|
      invariant crc == CrcOf(buf[..counter])
    {
      RoundDivides(crc, buf[counter], signed);
      assert buf[..counter + 1][..counter] == buf[..counter];
      crc := Round(crc, buf[counter], signed);
    }
    assert buf[..|buf|] == buf;
    forall r ensures IsRemainder(MessageBits(buf), r) <==> r == BitsOf(crc) {
      CrcIsRemainder(buf, r);
    }
  }
}
