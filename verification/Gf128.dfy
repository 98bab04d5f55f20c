/** Multiplication by alpha in GF(2^128), the XTS tweak step (IEEE Std 1619-2007, section 5.2). */
module Gf128 {
  import opened Bytes

  // ---- the driver's form: two 64-bit halves ----

  function FromLe64(b: Bytes): bv64
    requires |b| == 8
  {
    (b[0] as bv64) | ((b[1] as bv64) << 8) | ((b[2] as bv64) << 16) | ((b[3] as bv64) << 24)
    | ((b[4] as bv64) << 32) | ((b[5] as bv64) << 40) | ((b[6] as bv64) << 48) | ((b[7] as bv64) << 56)
  }

  function Octet(x: bv64): bv8 {
    (x & 0xFF) as bv8
  }

  function ToLe64(x: bv64): (b: Bytes)
    ensures |b| == 8
  {
    [Octet(x), Octet(x >> 8), Octet(x >> 16), Octet(x >> 24),
     Octet(x >> 32), Octet(x >> 40), Octet(x >> 48), Octet(x >> 56)]
  }

  function MulAlpha(t: Block): Block {
    var lo, hi := FromLe64(t[..8]), FromLe64(t[8..]);
    var carry: bv64 := if hi >> 63 != 0 then 0x87 else 0;
    ToLe64((lo << 1) ^ carry) + ToLe64((hi << 1) | (lo >> 63))
  }

  // ---- the byte form: every byte takes the top bit of the byte below it ----

  function Carry(t: Block, i: nat): bv8
    requires i <= 16
  {
    if i == 0 then 0 else t[i - 1] >> 7
  }

  function Reduction(t: Block): bv8 {
    if t[15] >> 7 != 0 then 0x87 else 0
  }

  function Doubled(t: Block, i: nat): bv8
    requires i < 16
  {
    (t[i] << 1) | Carry(t, i)
  }

  function LowBytes(t: Block): Bytes {
    [Doubled(t, 0) ^ Reduction(t), Doubled(t, 1), Doubled(t, 2), Doubled(t, 3),
     Doubled(t, 4), Doubled(t, 5), Doubled(t, 6), Doubled(t, 7)]
  }

  function HighBytes(t: Block): Bytes {
    [Doubled(t, 8), Doubled(t, 9), Doubled(t, 10), Doubled(t, 11),
     Doubled(t, 12), Doubled(t, 13), Doubled(t, 14), Doubled(t, 15)]
  }

  function MulAlphaBytes(t: Block): Block {
    LowBytes(t) + HighBytes(t)
  }

  lemma Low(b0: bv8, b1: bv8, b2: bv8, b3: bv8, b4: bv8, b5: bv8, b6: bv8, b7: bv8, c: bv8)
    ensures var x := FromLe64([b0, b1, b2, b3, b4, b5, b6, b7]);
            ToLe64((x << 1) ^ (c as bv64))
            == [(b0 << 1) ^ c, (b1 << 1) | (b0 >> 7), (b2 << 1) | (b1 >> 7), (b3 << 1) | (b2 >> 7),
                (b4 << 1) | (b3 >> 7), (b5 << 1) | (b4 >> 7), (b6 << 1) | (b5 >> 7), (b7 << 1) | (b6 >> 7)]
  {
  }

  lemma High(b0: bv8, b1: bv8, b2: bv8, b3: bv8, b4: bv8, b5: bv8, b6: bv8, b7: bv8, c: bv8)
    requires c <= 1
    ensures var x := FromLe64([b0, b1, b2, b3, b4, b5, b6, b7]);
            ToLe64((x << 1) | (c as bv64))
            == [(b0 << 1) | c, (b1 << 1) | (b0 >> 7), (b2 << 1) | (b1 >> 7), (b3 << 1) | (b2 >> 7),
                (b4 << 1) | (b3 >> 7), (b5 << 1) | (b4 >> 7), (b6 << 1) | (b5 >> 7), (b7 << 1) | (b6 >> 7)]
  {
  }

  lemma Top(b0: bv8, b1: bv8, b2: bv8, b3: bv8, b4: bv8, b5: bv8, b6: bv8, b7: bv8)
    ensures FromLe64([b0, b1, b2, b3, b4, b5, b6, b7]) >> 63 == (b7 >> 7) as bv64
    ensures b7 >> 7 <= 1
  {
  }

  lemma Slices(t: Block)
    ensures t[..8] == [t[0], t[1], t[2], t[3], t[4], t[5], t[6], t[7]]
    ensures t[8..] == [t[8], t[9], t[10], t[11], t[12], t[13], t[14], t[15]]
  {
  }

  lemma LowHalf(t: Block)
    ensures var carry: bv64 := if FromLe64(t[8..]) >> 63 != 0 then 0x87 else 0;
            ToLe64((FromLe64(t[..8]) << 1) ^ carry)
            == LowBytes(t)
  {
    hide FromLe64, ToLe64;
    Doubled0(t);
    Slices(t);
    Top(t[8], t[9], t[10], t[11], t[12], t[13], t[14], t[15]);
    Low(t[0], t[1], t[2], t[3], t[4], t[5], t[6], t[7], Reduction(t));
    assert t[15] >> 7 != 0 <==> (t[15] >> 7) as bv64 != 0;
  }

  lemma HighHalf(t: Block)
    ensures ToLe64((FromLe64(t[8..]) << 1) | (FromLe64(t[..8]) >> 63))
            == HighBytes(t)
  {
    hide FromLe64, ToLe64;
    Slices(t);
    Top(t[0], t[1], t[2], t[3], t[4], t[5], t[6], t[7]);
    High(t[8], t[9], t[10], t[11], t[12], t[13], t[14], t[15], t[7] >> 7);
  }

  /** The two-half form and the byte form are the same function on all 2^128 inputs. */
  lemma HalvesEqualBytes(t: Block)
    ensures MulAlpha(t) == MulAlphaBytes(t)
  {
    hide FromLe64, ToLe64, LowBytes, HighBytes;
    LowHalf(t);
    HighHalf(t);
  }

  lemma Doubled0(t: Block)
    ensures Doubled(t, 0) == t[0] << 1
  {
  }

  // ---- the definition: polynomials over GF(2) modulo x^128 + x^7 + x^2 + x + 1 ----

  type Poly = seq<bool>

  function Mask(k: nat): bv8
    requires k < 8
  {
    match k
    case 0 => 0x01
    case 1 => 0x02
    case 2 => 0x04
    case 3 => 0x08
    case 4 => 0x10
    case 5 => 0x20
    case 6 => 0x40
    case _ => 0x80
  }

  function BitOf(b: bv8, k: nat): bool
    requires k < 8
  {
    b & Mask(k) != 0
  }

  /** Coefficient `i` of a block is bit `i % 8` of byte `i / 8`. */
  function Coefficients(t: Block): (p: Poly)
    ensures |p| == 128
  {
    seq(128, i requires 0 <= i < 128 => BitOf(t[i / 8], i % 8))
  }

  function TimesX(p: Poly): Poly {
    [false] + p
  }

  function Sum(p: Poly, q: Poly): (r: Poly)
    requires |p| == |q|
    ensures |r| == |p|
  {
    seq(|p|, i requires 0 <= i < |p| => p[i] != q[i])
  }

  /** x^128 + x^7 + x^2 + x + 1 */
  function Modulus(): (p: Poly)
    ensures |p| == 129
  {
    seq(129, i => i == 0 || i == 1 || i == 2 || i == 7 || i == 128)
  }

  /** The remainder of x * p: subtract the modulus once when degree 128 is reached. */
  function TimesXMod(p: Poly): (r: Poly)
    requires |p| == 128
    ensures |r| == 129
  {
    if p[127] then Sum(TimesX(p), Modulus()) else TimesX(p)
  }

  lemma ShiftBit(b: bv8, below: bv8, k: nat)
    requires k < 8
    ensures BitOf((b << 1) | (below >> 7), k) == if k == 0 then BitOf(below, 7) else BitOf(b, k - 1)
    ensures BitOf(b << 1, k) == if k == 0 then false else BitOf(b, k - 1)
  {
    assert k == 0 || k == 1 || k == 2 || k == 3 || k == 4 || k == 5 || k == 6 || k == 7;
  }

  lemma ReduceBit(b: bv8, k: nat)
    requires k < 8
    ensures BitOf(b ^ 0x87, k) == (BitOf(b, k) != (k == 0 || k == 1 || k == 2 || k == 7))
  {
    assert k == 0 || k == 1 || k == 2 || k == 3 || k == 4 || k == 5 || k == 6 || k == 7;
  }

  lemma TopBit(b: bv8)
    ensures (b >> 7 != 0) == BitOf(b, 7)
  {
  }

  lemma FirstByte(t: Block, k: nat)
    requires k < 8
    ensures BitOf(MulAlphaBytes(t)[0], k)
            == ((k > 0 && BitOf(t[0], k - 1)) != (BitOf(t[15], 7) && (k == 0 || k == 1 || k == 2 || k == 7)))
  {
    Doubled0(t);
    TopBit(t[15]);
    ShiftBit(t[0], 0, k);
    ReduceBit(t[0] << 1, k);
    XorZero(t[0] << 1);
  }

  lemma XorZero(b: bv8)
    ensures b ^ 0 == b
  {
  }

  lemma ByteAt(t: Block, i: nat)
    requires 0 < i < 16
    ensures MulAlphaBytes(t)[i] == Doubled(t, i)
  {
    hide Doubled, Reduction;
    match i
    case 1 => case 2 => case 3 => case 4 => case 5 => case 6 => case 7 => case 8 =>
    case 9 => case 10 => case 11 => case 12 => case 13 => case 14 => case _ =>
  }

  lemma OtherByte(t: Block, i: nat, k: nat)
    requires 0 < i < 16 && k < 8
    ensures BitOf(MulAlphaBytes(t)[i], k) == if k == 0 then BitOf(t[i - 1], 7) else BitOf(t[i], k - 1)
  {
    hide BitOf, MulAlphaBytes;
    ByteAt(t, i);
    ShiftBit(t[i], t[i - 1], k);
  }

  /** One tweak step is multiplication by x in the field: the degree-128 coefficient of the
      reduced product is zero and the other 128 are the bits of the new block. */
  lemma AlphaIsX(t: Block)
    ensures TimesXMod(Coefficients(t)) == Coefficients(MulAlpha(t)) + [false]
  {
    hide MulAlpha, MulAlphaBytes, BitOf;
    HalvesEqualBytes(t);
    var p, m := Coefficients(t), MulAlphaBytes(t);
    forall i | 0 <= i < 128
      ensures TimesXMod(p)[i] == Coefficients(m)[i]
    {
      if i < 8 {
        FirstByte(t, i);
        assert i > 0 ==> TimesX(p)[i] == p[i - 1] == BitOf(t[0], i - 1);
      } else {
        OtherByte(t, i / 8, i % 8);
        assert TimesX(p)[i] == p[i - 1];
        if i % 8 == 0 {
          assert (i - 1) / 8 == i / 8 - 1 && (i - 1) % 8 == 7;
        } else {
          assert (i - 1) / 8 == i / 8 && (i - 1) % 8 == i % 8 - 1;
        }
      }
    }
    assert TimesX(p)[128] == p[127];
  }

  /** x^j * p in the field. */
  function TimesXTimes(p: Poly, j: nat): (r: Poly)
    requires |p| == 128
    ensures |r| == 128
  {
    if j == 0 then p else TimesXMod(TimesXTimes(p, j - 1))[..128]
  }

  // ---- the SDK's in-place byte-carry loop ----

  method XtsGfMul(t: array<bv8>)
    requires t.Length == 16
    modifies t
    ensures t[..] == MulAlpha(old(t[..]))
  {
    ghost var was: Block := t[..];
    var carry: bv8 := 0;
    for i := 0 to 16
      invariant carry == Carry(was, i)
      invariant forall k :: 0 <= k < i ==> t[k] == Doubled(was, k)
      invariant forall k :: i <= k < 16 ==> t[k] == was[k]
    {
      var next := t[i] >> 7;
      t[i] := (t[i] << 1) | carry;
      carry := next;
    }
    if carry != 0 {
      t[0] := t[0] ^ 0x87;
    }
    GoStep(was, t[..]);
  }

  lemma GoStep(was: Block, now: Block)
    requires now[0] == if Carry(was, 16) != 0 then Doubled(was, 0) ^ 0x87 else Doubled(was, 0)
    requires forall k :: 1 <= k < 16 ==> now[k] == Doubled(was, k)
    ensures now == MulAlpha(was)
  {
    hide MulAlpha, Doubled;
    HalvesEqualBytes(was);
    XorZero(Doubled(was, 0));
    assert now == MulAlphaBytes(was);
  }
}
