/** Byte strings: exclusive or, little-endian integers, and writes into a fixed-offset record. */
module Bytes {
  import Arith

  type Bytes = seq<bv8>
  type Block = b: Bytes | |b| == 16 witness Zeros(16)

  function Zeros(n: nat): (z: Bytes)
    ensures |z| == n
  {
    seq(n, _ => 0)
  }

  function Xor(a: Bytes, b: Bytes): (c: Bytes)
    requires |a| == |b|
    ensures |c| == |a|
  {
    seq(|a|, i requires 0 <= i < |a| => a[i] ^ b[i])
  }

  lemma XorCancels(a: Bytes, b: Bytes)
    requires |a| == |b|
    ensures Xor(Xor(a, b), b) == a
  {
    forall i | 0 <= i < |a|
      ensures Xor(Xor(a, b), b)[i] == a[i]
    {
      XorByteCancels(a[i], b[i]);
    }
  }

  lemma XorByteCancels(x: bv8, y: bv8)
    ensures (x ^ y) ^ y == x
  {
  }

  // ---- little-endian integers ----

  function Flag(x: bool, mask: bv8): bv8 { if x then mask else 0 }

  function Weight(b: bv8, mask: bv8, n: nat): nat { if b & mask != 0 then n else 0 }

  type Digit = d: nat | d < 2

  function Half(x: nat): nat { x / 2 }

  function Odd(x: nat): Digit { x % 2 }

  /** The low eight bits of `x`, one by one: integers and bit vectors stay apart. */
  function ByteOf(x: nat): bv8 {
    var x1 := Half(x); var x2 := Half(x1); var x3 := Half(x2); var x4 := Half(x3); var x5 := Half(x4);
    var x6 := Half(x5);
    Flag(Odd(x) == 1, 1) | Flag(Odd(x1) == 1, 2) | Flag(Odd(x2) == 1, 4) | Flag(Odd(x3) == 1, 8)
    | Flag(Odd(x4) == 1, 16) | Flag(Odd(x5) == 1, 32) | Flag(Odd(x6) == 1, 64) | Flag(Odd(Half(x6)) == 1, 128)
  }

  function ValueOf(b: bv8): (x: nat)
    ensures x < 256
  {
    Weight(b, 1, 1) + Weight(b, 2, 2) + Weight(b, 4, 4) + Weight(b, 8, 8)
    + Weight(b, 16, 16) + Weight(b, 32, 32) + Weight(b, 64, 64) + Weight(b, 128, 128)
  }

  lemma FlagWeights(a: bool, b: bool, c: bool, d: bool, e: bool, f: bool, g: bool, h: bool)
    ensures ValueOf(Flag(a, 1) | Flag(b, 2) | Flag(c, 4) | Flag(d, 8)
                    | Flag(e, 16) | Flag(f, 32) | Flag(g, 64) | Flag(h, 128))
            == (if a then 1 else 0) + (if b then 2 else 0) + (if c then 4 else 0) + (if d then 8 else 0)
               + (if e then 16 else 0) + (if f then 32 else 0) + (if g then 64 else 0) + (if h then 128 else 0)
  {
  }

  lemma DigitWeights(a: Digit, b: Digit, c: Digit, d: Digit, e: Digit, f: Digit, g: Digit, h: Digit)
    ensures ValueOf(Flag(a == 1, 1) | Flag(b == 1, 2) | Flag(c == 1, 4) | Flag(d == 1, 8)
                    | Flag(e == 1, 16) | Flag(f == 1, 32) | Flag(g == 1, 64) | Flag(h == 1, 128))
            == a + 2 * b + 4 * c + 8 * d + 16 * e + 32 * f + 64 * g + 128 * h
  {
    hide Flag, ValueOf;
    FlagWeights(a == 1, b == 1, c == 1, d == 1, e == 1, f == 1, g == 1, h == 1);
  }

  lemma Halves(x: nat, n: nat)
    requires x < 2 * n
    ensures x == 2 * Half(x) + Odd(x) && Half(x) < n
  {
  }

  lemma ByteRoundTrip(x: nat)
    requires x < 256
    ensures ValueOf(ByteOf(x)) == x
  {
    hide Flag, ValueOf, Half, Odd;
    var x1 := Half(x); var x2 := Half(x1); var x3 := Half(x2); var x4 := Half(x3); var x5 := Half(x4);
    var x6 := Half(x5);
    var x7 := Half(x6);
    Halves(x, 128);
    Halves(x1, 64);
    Halves(x2, 32);
    Halves(x3, 16);
    Halves(x4, 8);
    Halves(x5, 4);
    Halves(x6, 2);
    Halves(x7, 1);
    DigitWeights(Odd(x), Odd(x1), Odd(x2), Odd(x3), Odd(x4), Odd(x5), Odd(x6), Odd(x7));
  }

  function Pow256(n: nat): (p: nat)
    ensures p > 0
  {
    if n == 0 then 1 else 256 * Pow256(n - 1)
  }

  /** The low `8n` bits of `x`, least significant byte first. */
  function LeBytes(x: nat, n: nat): (s: Bytes)
    ensures |s| == n
  {
    if n == 0 then [] else [ByteOf(x % 256)] + LeBytes(x / 256, n - 1)
  }

  function LeNat(s: Bytes): nat {
    if s == [] then 0 else ValueOf(s[0]) + 256 * LeNat(s[1..])
  }

  /** Decoding inverts encoding for every value that fits in the field. */
  lemma {:induction false} LeRoundTrip(x: nat, n: nat)
    requires x < Pow256(n)
    ensures LeNat(LeBytes(x, n)) == x
  {
    hide ByteOf, ValueOf;
    if n > 0 {
      LeRoundTrip(x / 256, n - 1);
      ByteRoundTrip(x % 256);
      LeNatCons(ByteOf(x % 256), LeBytes(x / 256, n - 1));
    }
  }

  lemma LeNatCons(b: bv8, s: Bytes)
    ensures LeNat([b] + s) == ValueOf(b) + 256 * LeNat(s)
  {
    hide ValueOf;
    assert ([b] + s)[1..] == s;
  }

  /** Byte `k` holds the `k`-th base-256 digit. */
  lemma {:induction false} LeBytesAt(x: nat, n: nat, k: nat)
    requires k < n
    ensures LeBytes(x, n)[k] as nat == x / Pow256(k) % 256
    decreases n
  {
    hide ByteOf;
    if k == 0 {
      ByteRoundTrip(x % 256);
      ValueIsNat(ByteOf(x % 256));
    } else {
      LeBytesAt(x / 256, n - 1, k - 1);
      Arith.DivideTwice(x, 256, Pow256(k - 1), Pow256(k));
    }
  }

  lemma ValueIsNat(b: bv8)
    ensures ValueOf(b) == b as nat
  {
  }

  /** The widths used on disk. */
  lemma Widths()
    ensures Pow256(1) == 0x100 && Pow256(2) == 0x1_0000 && Pow256(4) == 0x1_0000_0000
    ensures Pow256(8) == 0x1_0000_0000_0000_0000
  {
    assert Pow256(3) == 0x100_0000;
    assert Pow256(5) == 0x100_0000_0000 && Pow256(6) == 0x1_0000_0000_0000;
    assert Pow256(7) == 0x100_0000_0000_0000;
  }

  /** Zero encodes to zero bytes. */
  lemma {:induction false} LeZero(n: nat)
    ensures LeBytes(0, n) == Zeros(n)
  {
    if n > 0 {
      LeZero(n - 1);
    }
  }

  // ---- records with fields at fixed offsets ----

  datatype Field = Field(off: nat, bytes: Bytes) {
    function End(): nat { off + |bytes| }

    predicate Apart(o: nat, n: nat) { End() <= o || o + n <= off }
  }

  function Get(b: Bytes, off: nat, n: nat): (s: Bytes)
    requires off + n <= |b|
    ensures |s| == n
  {
    b[off..off + n]
  }

  function Put(b: Bytes, f: Field): (r: Bytes)
    requires f.End() <= |b|
    ensures |r| == |b|
  {
    b[..f.off] + f.bytes + b[f.End()..]
  }

  predicate Fit(fs: seq<Field>, n: nat) {
    forall i :: 0 <= i < |fs| ==> fs[i].End() <= n
  }

  predicate Disjoint(fs: seq<Field>) {
    forall i, j :: 0 <= i < j < |fs| ==> fs[j].Apart(fs[i].off, |fs[i].bytes|)
  }

  /** The record after writing the fields in order. */
  function PutAll(b: Bytes, fs: seq<Field>): (r: Bytes)
    requires Fit(fs, |b|)
    ensures |r| == |b|
  {
    if fs == [] then b else Put(PutAll(b, fs[..|fs| - 1]), fs[|fs| - 1])
  }

  /** A range that no field touches keeps its bytes. */
  lemma {:induction false} GetUntouched(b: Bytes, fs: seq<Field>, off: nat, n: nat)
    requires Fit(fs, |b|) && off + n <= |b|
    requires forall i :: 0 <= i < |fs| ==> fs[i].Apart(off, n)
    ensures Get(PutAll(b, fs), off, n) == Get(b, off, n)
  {
    if fs != [] {
      var rest, f := fs[..|fs| - 1], fs[|fs| - 1];
      GetUntouched(b, rest, off, n);
      assert f.Apart(off, n);
      var p := PutAll(b, rest);
      assert forall k :: off <= k < off + n ==> Put(p, f)[k] == p[k];
    }
  }

  /** Disjoint fields read back exactly what was written. */
  lemma {:induction false} GetField(b: Bytes, fs: seq<Field>, i: nat)
    requires Fit(fs, |b|) && Disjoint(fs) && i < |fs|
    ensures Get(PutAll(b, fs), fs[i].off, |fs[i].bytes|) == fs[i].bytes
  {
    var rest, f := fs[..|fs| - 1], fs[|fs| - 1];
    var p := PutAll(b, rest);
    if i < |rest| {
      GetField(b, rest, i);
      assert rest[i] == fs[i] && f.Apart(fs[i].off, |fs[i].bytes|);
      forall k | fs[i].off <= k < fs[i].End()
        ensures Put(p, f)[k] == p[k]
      {
      }
    }
  }

  lemma PutAllSnoc(b: Bytes, fs: seq<Field>, f: Field)
    requires Fit(fs, |b|) && f.End() <= |b|
    ensures Fit(fs + [f], |b|)
    ensures PutAll(b, fs + [f]) == Put(PutAll(b, fs), f)
  {
    assert (fs + [f])[..|fs|] == fs;
  }

  /** In-place copy of `f.bytes` to its offset. */
  method CopyInto(out: array<bv8>, f: Field)
    requires f.End() <= out.Length
    modifies out
    ensures out[..] == Put(old(out[..]), f)
  {
    for j := 0 to |f.bytes|
      invariant forall k :: 0 <= k < j ==> out[f.off + k] == f.bytes[k]
      invariant forall k :: 0 <= k < out.Length && (k < f.off || f.off + j <= k) ==> out[k] == old(out[k])
    {
      out[f.off + j] := f.bytes[j];
    }
  }
}
